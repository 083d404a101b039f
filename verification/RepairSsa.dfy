/** Repairing SSA form: new names for values with several definitions, and phis where they meet
    (crates/deko-nak/src/repair_ssa.rs). */
module RepairSsa {
  import opened Machine
  import opened SsaRuns
  import opened SsaTables
  import opened PrunePhis

  // ----- The worklist: a heap of block indices, of which the smallest comes next -----

  function Smallest(w: seq<nat>): (i: nat)
    requires w != []
    ensures i < |w| && forall j :: 0 <= j < |w| ==> w[i] <= w[j]
  {
    if |w| == 1 then 0 else
      var i := Smallest(w[..|w| - 1]);
      assert forall j :: 0 <= j < |w| - 1 ==> w[j] == w[..|w| - 1][j];
      if w[|w| - 1] < w[i] then |w| - 1 else i
  }

  /** How many blocks of the worklist have been sorted out already. */
  ghost function Settled(defs: seq<map<Ssa, Ssa>>, s: Ssa, w: seq<nat>): nat {
    if w == [] then 0 else Settled(defs, s, w[..|w| - 1]) + if IsSettled(defs, s, w[|w| - 1]) then 1 else 0
  }

  predicate IsSettled(defs: seq<map<Ssa, Ssa>>, s: Ssa, b: nat) {
    b < |defs| && s in defs[b]
  }

  function Remove(w: seq<nat>, i: nat): seq<nat>
    requires i < |w|
  {
    w[..i] + w[i + 1..]
  }

  lemma {:induction false} RemoveSettled(defs: seq<map<Ssa, Ssa>>, s: Ssa, w: seq<nat>, i: nat)
    requires i < |w| && IsSettled(defs, s, w[i])
    ensures Settled(defs, s, Remove(w, i)) == Settled(defs, s, w) - 1
  {
    if i == |w| - 1 {
      assert Remove(w, i) == w[..i];
    } else {
      var short := w[..|w| - 1];
      RemoveSettled(defs, s, short, i);
      var r := Remove(w, i);
      assert r[..|r| - 1] == Remove(short, i) && r[|r| - 1] == w[|w| - 1];
    }
  }

  // ----- How the tables may change while a version is looked up -----

  ghost function Missing(job: Job, t: Tables): set<(nat, Ssa)> {
    set b: nat, s | b < |t.defs| && s in job.multi && s !in t.defs[b] :: (b, s)
  }

  /** Looking up `s` only adds: versions of it, and phis for it in blocks that had no version, all of whose
      back edges are then due. */
  ghost predicate Searched(job: Job, s: Ssa, t: Tables, t': Tables) {
    && |t'.defs| == |t.defs| && |t'.phis| == |t.phis| == |t.defs| == |job.f.pred|
    && t.needsSrc <= t'.needsSrc
    && (forall b: nat :: b < |t.defs| ==> SearchedBlock(job, s, t, t', b))
    && (t' == t || Missing(job, t') < Missing(job, t))
  }

  ghost predicate SearchedBlock(job: Job, s: Ssa, t: Tables, t': Tables, b: nat)
    requires b < |t.defs| == |t'.defs| == |t.phis| == |t'.phis| == |job.f.pred|
  {
    && Extends(t.defs[b], t'.defs[b])
    && (t'.phis[b] == t.phis[b] || (s !in t.defs[b] && s in t'.defs[b] && BackEdges(job.f, b) <= t'.needsSrc))
  }

  lemma SearchedTwice(job: Job, s: Ssa, t: Tables, t1: Tables, t2: Tables)
    requires Searched(job, s, t, t1) && Searched(job, s, t1, t2)
    ensures Searched(job, s, t, t2)
  {
    hide Missing, BackEdges;
    forall b: nat | b < |t.defs|
      ensures SearchedBlock(job, s, t, t2, b)
    {
      assert SearchedBlock(job, s, t, t1, b) && SearchedBlock(job, s, t1, t2, b);
    }
  }

  lemma Unsearched(job: Job, s: Ssa, t: Tables)
    requires |t.phis| == |t.defs| == |job.f.pred|
    ensures Searched(job, s, t, t)
  {
  }

  lemma PutSearched(job: Job, t: Tables, t': Tables, b: nat, s: Ssa, v: Ssa)
    requires |t.phis| == |t.defs| == |job.f.pred| && b < |t.defs| && s in job.multi && s !in t.defs[b]
    requires t'.defs == Put(t.defs, b, s, v) && t.needsSrc <= t'.needsSrc && |t'.phis| == |t.phis|
    requires t'.phis[b] == t.phis[b] || BackEdges(job.f, b) <= t'.needsSrc
    requires forall c :: 0 <= c < |t.phis| && c != b ==> t'.phis[c] == t.phis[c]
    ensures Searched(job, s, t, t')
  {
    hide BackEdges;
    assert (b, s) in Missing(job, t) && (b, s) !in Missing(job, t');
  }

  // ----- Looking up a version -----

  /** A block that is complete but has no version of a value depends on the blocks before it. */
  lemma DependsOnBefore(job: Job, t: Tables, h: History, due: set<nat>, b: nat, p: nat, s: Ssa)
    requires Inv(job, t, h, due) && b < |job.f.pred| && CoveredIn(job.f, b, s) && p in job.f.pred[b] && s in job.multi
    requires p < |t.defs| && Complete(job.f, h.code, p) && s !in t.defs[p]
    ensures CoveredIn(job.f, p, s)
  {
    hide Covered, Defines, Versions;
    assert BlockInv(job, t, h, due, p);
    VersionsKeys(job.multi, h.entry[p], job.f.blocks[p], h.code[p], |h.code[p]|, s);
    CoveredBack(job.f, p, s);
  }

  class DefTracker {
    var t: Tables
    ghost var h: History

    constructor (job: Job)
      requires job.Valid()
      ensures Inv(job, t, h, {}) && t.needsSrc == {}
      ensures forall b :: 0 <= b < |h.code| ==> h.code[b] == []
    {
      var n := |job.f.blocks|;
      var nothing: map<Ssa, Ssa> := map[];
      t := Tables(seq(n, b => nothing), seq(n, b => []), {}, job.base, 0);
      h := History(seq(n, b => nothing), map[], seq(n, b => []));
    }

    /** Looks at the blocks before `b`: puts those without a version on the worklist, and otherwise finds
        out whether they all agree. */
    method ScanPreds(f: Func, b: nat, s: Ssa, work0: seq<nat>) returns (work: seq<nat>, pushed: bool, predSsa: Option<Ssa>, allSame: bool)
      requires b < |f.pred| && (forall p :: p in f.pred[b] ==> p < |t.defs|) && f.pred[b] != [] && f.pred[b][0] < b
      ensures work0 <= work && (pushed <==> work0 < work)
      ensures forall i :: |work0| <= i < |work| ==> work[i] in f.pred[b] && work[i] < b && !IsSettled(t.defs, s, work[i])
      ensures Settled(t.defs, s, work) == Settled(t.defs, s, work0)
      ensures !pushed ==> forall p :: p in f.pred[b] && p < b ==> IsSettled(t.defs, s, p)
      ensures !pushed && allSame ==> forall p :: p in f.pred[b] ==> p < b && IsSettled(t.defs, s, p) && predSsa == Some(t.defs[p][s])
      ensures !allSame ==> |f.pred[b]| > 1
    {
      work, pushed, predSsa, allSame := work0, false, None, true;
      for i := 0 to |f.pred[b]|
        invariant work0 <= work && (pushed <==> work0 < work)
        invariant forall i :: |work0| <= i < |work| ==> work[i] in f.pred[b] && work[i] < b && !IsSettled(t.defs, s, work[i])
        invariant Settled(t.defs, s, work) == Settled(t.defs, s, work0)
        invariant !pushed ==> forall p :: p in f.pred[b][..i] && p < b ==> IsSettled(t.defs, s, p)
        invariant !pushed && allSame ==> forall p :: p in f.pred[b][..i] ==> p < b && IsSettled(t.defs, s, p) && predSsa == Some(t.defs[p][s])
        invariant (!pushed && predSsa == None && allSame ==> i == 0) && (i == 0 ==> predSsa == None) && (!allSame ==> i > 1)
      {
        var p := f.pred[b][i];
        assert f.pred[b][..i + 1] == f.pred[b][..i] + [p] && p in f.pred[b];
        if p >= b {
          allSame := false;
        } else if s in t.defs[p] {
          if predSsa.None? {
            predSsa := Some(t.defs[p][s]);
          } else if predSsa.value != t.defs[p][s] {
            allSame := false;
          }
        } else {
          assert (work + [p])[..|work|] == work;
          work := work + [p];
          pushed := true;
        }
      }
      assert f.pred[b][..|f.pred[b]|] == f.pred[b];
    }

    /** Gives block `b` a version of `s`, when all blocks before it have one. */
    method Settle(job: Job, b: nat, s: Ssa, predSsa: Option<Ssa>, allSame: bool, ghost extra: set<nat>)
      requires Inv(job, t, h, t.needsSrc + extra) && b < |job.f.blocks| && s in job.multi && s !in t.defs[b] && CoveredIn(job.f, b, s)
      requires forall c :: 0 <= c < b ==> Complete(job.f, h.code, c)
      requires forall p :: p in job.f.pred[b] && p < b ==> IsSettled(t.defs, s, p)
      requires allSame ==> forall p :: p in job.f.pred[b] ==> p < b && IsSettled(t.defs, s, p) && predSsa == Some(t.defs[p][s])
      requires !allSame ==> |job.f.pred[b]| > 1
      modifies this
      ensures Inv(job, t, h, t.needsSrc + extra) && Searched(job, s, old(t), t) && h.code == old(h.code) && s in t.defs[b]
    {
      hide BlockInv, CoveredIn, Complete, BackEdges, Searched;
      if allSame {
        HasPredecessor(job.f, b, s);
        assert job.f.pred[b][0] in job.f.pred[b];
        var v := predSsa.value;
        AddCopy(job, t, h, t.needsSrc + extra, b, s, v);
        t := t.(defs := Put(t.defs, b, s, v));
        h := h.(entry := Put(h.entry, b, s, v));
        PutSearched(job, old(t), t, b, s, v);
      } else {
        AddPhi(job, t, h, t.needsSrc + extra, b, s);
        assert t.needsSrc + extra + BackEdges(job.f, b) == t.needsSrc + BackEdges(job.f, b) + extra;
        h := PhiHistory(t, h, b, s);
        t := WithPhi(job.f, t, b, s);
        PutSearched(job, old(t), t, b, s, old(t).nextSsa);
      }
    }

    /** The version of `s` at the end of block `b0` (or so far, when the block is not complete), with all
        the phis that it takes. */
    method GetSsaOrPhi(job: Job, b0: nat, s: Ssa, ghost extra: set<nat>) returns (r: Ssa)
      requires Inv(job, t, h, t.needsSrc + extra) && b0 < |job.f.blocks| && s in job.multi
      requires s in t.defs[b0] || CoveredIn(job.f, b0, s)
      requires forall b :: 0 <= b < b0 ==> Complete(job.f, h.code, b)
      modifies this
      ensures Inv(job, t, h, t.needsSrc + extra) && Searched(job, s, old(t), t) && h.code == old(h.code)
      ensures s in t.defs[b0] && r == t.defs[b0][s]
    {
      hide BlockInv, CoveredIn, Complete, Searched, NamesOk, Missing, Settled;
      Unsearched(job, s, t);
      var worklist: seq<nat> := [b0];
      while true
        invariant Inv(job, t, h, t.needsSrc + extra) && Searched(job, s, old(t), t) && h.code == old(h.code)
        invariant WorkOk(job, t, s, b0, worklist)
        decreases Missing(job, t), Settled(t.defs, s, worklist), worklist[Smallest(worklist)]
      {
        var i := Smallest(worklist);
        var b := worklist[i];
        if s in t.defs[b] {
          r := t.defs[b][s];
          if |worklist| == 1 {
            return;
          }
          RemoveSettled(t.defs, s, worklist, i);
          worklist := Remove(worklist, i);
        } else {
          HasPredecessor(job.f, b, s);
          var work, pushed, predSsa, allSame := ScanPreds(job.f, b, s, worklist);
          if pushed {
            PushedAreCovered(job, t, h, t.needsSrc + extra, b, b0, s, worklist, work);
            worklist := work;
          } else {
            ghost var before := t;
            Settle(job, b, s, predSsa, allSame, extra);
            SearchedMore(job, s, old(t), before, t, b, worklist);
          }
        }
      }
    }

    /** The operands of the next instruction of block `b`, in their current versions. */
    method RewriteUses(job: Job, b: nat, ip: nat) returns (uses: seq<Ssa>)
      requires Inv(job, t, h, t.needsSrc) && b < |job.f.blocks| && |h.code[b]| == ip < |job.f.blocks[b]| && Strict(job.f)
      requires forall c :: 0 <= c < b ==> Complete(job.f, h.code, c)
      modifies this
      ensures Inv(job, t, h, t.needsSrc) && h.code == old(h.code)
      ensures var was := job.f.blocks[b][ip]; UsesOk(job.multi, t.defs[b], was.uses, uses) && |uses| == |was.uses|
    {
      hide BlockInv, CoveredIn, Complete, Searched, NamesOk, UseOk, Strict;
      var was := job.f.blocks[b][ip];
      uses := [];
      for j := 0 to |was.uses|
        invariant Inv(job, t, h, t.needsSrc) && h.code == old(h.code) && |uses| == j && UsesOk(job.multi, t.defs[b], was.uses, uses)
      {
        var u := was.uses[j];
        if u in job.multi {
          UseKnown(job, t, h, t.needsSrc, b, ip, j);
          ghost var before := t;
          assert t.needsSrc + {} == t.needsSrc;
          var v := GetSsaOrPhi(job, b, u, {});
          assert t.needsSrc + {} == t.needsSrc;
          UsesStay(job, u, before, t, b, was.uses, uses);
          UsesAppend(job.multi, t.defs[b], was.uses, uses, v);
          uses := uses + [v];
        } else {
          UsesAppend(job.multi, t.defs[b], was.uses, uses, u);
          uses := uses + [u];
        }
      }
    }

    /** The next instruction of block `b`: its operands in their current versions, its results under new
        names, which are the current versions from here on. */
    method RewriteInstr(job: Job, b: nat, ip: nat) returns (now: Instr)
      requires Inv(job, t, h, t.needsSrc) && b < |job.f.blocks| && |h.code[b]| == ip < |job.f.blocks[b]| && Strict(job.f)
      requires forall c :: 0 <= c < b ==> Complete(job.f, h.code, c)
      modifies this
      ensures Inv(job, t, h, t.needsSrc) && h.code == old(h.code)[b := old(h.code)[b] + [now]]
    {
      hide BlockInv, CoveredIn, Complete, UseOk, Strict, DefVersions;
      var was := job.f.blocks[b][ip];
      var uses := RewriteUses(job, b, ip);
      var defs: seq<Ssa> := [];
      var next := t.nextSsa;
      ghost var info, t0, h0 := h.info, t, h;
      SameInfo(info);
      for j := 0 to |was.defs|
        invariant t == t0 && h == h0
        invariant |defs| == j && MoreInfo(h.info, info) && job.base <= next && (forall x :: x in info <==> job.base <= x < next)
        invariant DefsNamed(job.multi, info, was.defs, defs, b, ip)
      {
        if was.defs[j] in job.multi {
          NameAppend(job.multi, h.info, info, was.defs, defs, b, ip, next);
          info := info[next := Info(was.defs[j], DefAt(b, ip, j))];
          defs := defs + [next];
          next := next + 1;
        } else {
          defs := defs + [was.defs[j]];
        }
      }
      now := Instr(uses, defs);
      NamedInstr(job.multi, info, t.defs[b], was, now, b, ip);
      AddInstr(job, t, h, t.needsSrc, b, now, next, info);
      t := WithInstr(job, t, b, was, now, next);
      h := InstrHistory(h, b, now, info);
    }

    /** The first pass over the blocks. */
    method RewriteBlocks(job: Job) returns (code: seq<Block>)
      requires Inv(job, t, h, t.needsSrc) && Strict(job.f) && forall b :: 0 <= b < |h.code| ==> h.code[b] == []
      modifies this
      ensures Inv(job, t, h, t.needsSrc) && h.code == code && forall b :: 0 <= b < |job.f.blocks| ==> Complete(job.f, h.code, b)
    {
      hide BlockInv, NamesOk, Strict;
      code := [];
      for b := 0 to |job.f.blocks|
        invariant Inv(job, t, h, t.needsSrc) && forall c :: 0 <= c < b ==> Complete(job.f, h.code, c)
        invariant |code| == b && code == h.code[..b] && forall c :: b <= c < |h.code| ==> h.code[c] == []
      {
        var block: Block := [];
        for ip := 0 to |job.f.blocks[b]|
          invariant Inv(job, t, h, t.needsSrc) && forall c :: 0 <= c < b ==> Complete(job.f, h.code, c)
          invariant |block| == ip && block == h.code[b] && code == h.code[..b] && forall c :: b < c < |h.code| ==> h.code[c] == []
        {
          ghost var before := h.code;
          var now := RewriteInstr(job, b, ip);
          StillComplete(job.f, before, h.code, b);
          block := block + [now];
        }
        code := code + [block];
      }
    }

    /** One phi gets its source from the block `p` behind it. */
    method FillPhi(job: Job, p: nat, c: nat, i: nat)
      requires Inv(job, t, h, t.needsSrc + {p}) && AllComplete(job.f, h.code) && p < |job.f.blocks| && c < |job.f.blocks|
      requires p in job.f.pred[c] && i < |t.phis[c]|
      modifies this
      ensures Inv(job, t, h, t.needsSrc + {p}) && h.code == old(h.code) && Advances(job, old(t), t)
      ensures |t.phis[c]| == |old(t).phis[c]| && forall j :: 0 <= j < |t.phis[c]| ==> old(t).phis[c][j].srcs.Keys <= t.phis[c][j].srcs.Keys
      ensures p in t.phis[c][i].srcs && forall b: nat :: b < |t.phis| && FilledAt(job.f, old(t), b, p) ==> FilledAt(job.f, t, b, p)
    {
      hide BlockInv, Complete, Searched, Missing, NamesOk;
      if p !in t.phis[c][i].srcs {
        var s := t.phis[c][i].orig;
        PhiNeeds(job, t, h, t.needsSrc + {p}, p, c, i);
        var v := GetSsaOrPhi(job, p, s, {p});
        SearchAdvances(job, s, old(t), t, c);
        KeepsFilled(job, s, old(t), t, p);
        ghost var t1 := t;
        AddSource(job, t, h, t.needsSrc + {p}, c, i, p);
        t := WithSource(t, c, i, p, v);
        SourceAdvances(job, old(t), t1, c, i, p, v);
      }
    }

    /** The back edges of block `p`. */
    method FillFrom(job: Job, p: nat)
      requires Inv(job, t, h, t.needsSrc + {p}) && AllComplete(job.f, h.code) && p < |job.f.blocks|
      modifies this
      ensures Inv(job, t, h, t.needsSrc) && h.code == old(h.code) && Advances(job, old(t), t)
    {
      hide BlockInv, Complete, Missing, NamesOk, FilledAt, Advances;
      Stays(job, t);
      for k := 0 to |job.f.succ[p]|
        invariant Inv(job, t, h, t.needsSrc + {p}) && h.code == old(h.code) && Advances(job, old(t), t)
        invariant forall b :: b in job.f.succ[p][..k] && b <= p && b < |t.phis| ==> FilledAt(job.f, t, b, p)
      {
        var c := job.f.succ[p][k];
        assert c in job.f.succ[p] && job.f.succ[p][..k + 1] == job.f.succ[p][..k] + [c];
        if c <= p {
          var n := |t.phis[c]|;
          for i := 0 to n
            invariant Inv(job, t, h, t.needsSrc + {p}) && h.code == old(h.code) && Advances(job, old(t), t)
            invariant forall b :: b in job.f.succ[p][..k] && b <= p && b < |t.phis| ==> FilledAt(job.f, t, b, p)
            invariant |t.phis[c]| == n && forall j :: 0 <= j < i ==> p in t.phis[c][j].srcs
          {
            ghost var before := t;
            FillPhi(job, p, c, i);
            AdvancesTwice(job, old(t), before, t);
          }
          AllFilled(job.f, t, c, p);
        }
      }
      assert job.f.succ[p][..|job.f.succ[p]|] == job.f.succ[p];
      FilledIsNotDue(job, t, h, p);
    }

    /** The sources from back edges, until nothing is due any more. */
    method FillSources(job: Job)
      requires Inv(job, t, h, t.needsSrc) && AllComplete(job.f, h.code)
      modifies this
      ensures Inv(job, t, h, {}) && h.code == old(h.code)
    {
      hide BlockInv, Complete, Missing, NamesOk;
      while t.needsSrc != {}
        invariant Inv(job, t, h, t.needsSrc) && h.code == old(h.code)
        decreases Missing(job, t), t.needsSrc
      {
        var p :| p in t.needsSrc;
        ghost var before := t;
        assert t.needsSrc - {p} + {p} == t.needsSrc;
        t := t.(needsSrc := t.needsSrc - {p});
        SameButDue(job, before, t, h, before.needsSrc);
        if p < |job.f.blocks| {
          FillFrom(job, p);
        } else {
          NobodyWaits(job, t, h, p);
        }
      }
    }
  }

  ghost predicate AllComplete(f: Func, code: seq<Block>) {
    forall b: nat :: b < |f.blocks| ==> Complete(f, code, b)
  }

  /** Either something new is known, or nothing new is due. */
  ghost predicate Advances(job: Job, t: Tables, t': Tables) {
    |t'.phis| == |t.phis| && (Missing(job, t') < Missing(job, t) || (Missing(job, t') == Missing(job, t) && t'.needsSrc == t.needsSrc))
  }

  lemma Stays(job: Job, t: Tables)
    ensures Advances(job, t, t)
  {
  }

  lemma AdvancesTwice(job: Job, t: Tables, t1: Tables, t2: Tables)
    requires Advances(job, t, t1) && Advances(job, t1, t2)
    ensures Advances(job, t, t2)
  {
    hide Missing;
  }

  /** All phis of block `b` have a source from `p`, or `p` is due again. */
  ghost predicate FilledAt(f: Func, t: Tables, b: nat, p: nat)
    requires b < |t.phis|
  {
    b < |f.pred| && p in f.pred[b] && p >= b ==> p in t.needsSrc || forall i :: 0 <= i < |t.phis[b]| ==> p in t.phis[b][i].srcs
  }

  lemma AllFilled(f: Func, t: Tables, b: nat, p: nat)
    requires b < |t.phis| && forall i :: 0 <= i < |t.phis[b]| ==> p in t.phis[b][i].srcs
    ensures FilledAt(f, t, b, p)
  {
  }

  /** The version that a phi needs from a back edge can be looked up, and the block of the phi has one. */
  lemma PhiNeeds(job: Job, t: Tables, h: History, due: set<nat>, p: nat, c: nat, i: nat)
    requires Inv(job, t, h, due) && AllComplete(job.f, h.code) && p < |job.f.blocks| && c < |job.f.blocks| && p in job.f.pred[c] && i < |t.phis[c]|
    ensures var s := t.phis[c][i].orig; s in job.multi && s in t.defs[c] && (s in t.defs[p] || CoveredIn(job.f, p, s))
  {
    hide CoveredIn, Versions, BlockOk;
    var s := t.phis[c][i].orig;
    assert BlockInv(job, t, h, due, c);
    VersionsKept(job, t, h, due, c, s);
    if s !in t.defs[p] {
      assert Complete(job.f, h.code, p);
      DependsOnBefore(job, t, h, due, c, p, s);
    }
  }

  lemma VersionsKept(job: Job, t: Tables, h: History, due: set<nat>, c: nat, s: Ssa)
    requires BlockInv(job, t, h, due, c) && s in h.entry[c]
    ensures s in t.defs[c]
  {
    hide Versions, CoveredIn;
    VersionsKeys(job.multi, h.entry[c], job.f.blocks[c], h.code[c], |h.code[c]|, s);
  }

  lemma SearchAdvances(job: Job, s: Ssa, t: Tables, t': Tables, c: nat)
    requires Searched(job, s, t, t') && c < |t.defs| && s in t.defs[c]
    ensures Advances(job, t, t') && t'.phis[c] == t.phis[c]
  {
    assert SearchedBlock(job, s, t, t', c);
  }

  lemma KeepsFilled(job: Job, s: Ssa, t: Tables, t': Tables, p: nat)
    requires Searched(job, s, t, t')
    ensures forall b: nat :: b < |t.phis| && FilledAt(job.f, t, b, p) ==> FilledAt(job.f, t', b, p)
  {
    forall b: nat | b < |t.phis| && FilledAt(job.f, t, b, p)
      ensures FilledAt(job.f, t', b, p)
    {
      assert SearchedBlock(job, s, t, t', b);
    }
  }

  lemma SourceAdvances(job: Job, t: Tables, t1: Tables, c: nat, i: nat, p: nat, v: Ssa)
    requires Advances(job, t, t1) && c < |t1.phis| && i < |t1.phis[c]|
    ensures Advances(job, t, WithSource(t1, c, i, p, v))
    ensures forall b: nat :: b < |t1.phis| && FilledAt(job.f, t1, b, p) ==> FilledAt(job.f, WithSource(t1, c, i, p, v), b, p)
  {
    assert Missing(job, WithSource(t1, c, i, p, v)) == Missing(job, t1);
  }

  lemma FilledIsNotDue(job: Job, t: Tables, h: History, p: nat)
    requires Inv(job, t, h, t.needsSrc + {p}) && p < |job.f.blocks|
    requires forall b :: b in job.f.succ[p] && b <= p && b < |t.phis| ==> FilledAt(job.f, t, b, p)
    ensures Inv(job, t, h, t.needsSrc)
  {
    hide BlockInv, NamesOk;
    forall b, i | 0 <= b < |t.phis| && 0 <= i < |t.phis[b]| && b < |job.f.pred| && p in job.f.pred[b] && p !in t.needsSrc
      ensures p in t.phis[b][i].srcs
    {
      if b <= p {
        assert FilledAt(job.f, t, b, p);
      } else {
        ForwardSource(job, t, h, t.needsSrc + {p}, b, i, p);
      }
    }
    NotDue(job, t, h, t.needsSrc + {p}, t.needsSrc, p);
  }

  lemma ForwardSource(job: Job, t: Tables, h: History, due: set<nat>, b: nat, i: nat, p: nat)
    requires Inv(job, t, h, due) && b < |job.f.blocks| && i < |t.phis[b]| && p in job.f.pred[b] && p < b
    ensures p in t.phis[b][i].srcs
  {
    assert BlockInv(job, t, h, due, b);
    assert PhiPartly(job.f, h.code, t.defs, due, t.phis[b][i], b);
  }

  lemma SameButDue(job: Job, t: Tables, t': Tables, h: History, due: set<nat>)
    requires Inv(job, t, h, due) && t' == t.(needsSrc := t'.needsSrc)
    ensures Inv(job, t', h, due) && Missing(job, t') == Missing(job, t)
  {
    hide BlockOk, AreVersions, PhisOk, SitesOk, PhiPartly, CoveredIn, HasPhi, SameBefore, Versions;
    forall b: nat | b < |job.f.blocks|
      ensures BlockInv(job, t', h, due, b)
    {
      assert BlockInv(job, t, h, due, b);
    }
  }

  lemma NobodyWaits(job: Job, t: Tables, h: History, p: nat)
    requires Inv(job, t, h, t.needsSrc + {p}) && p >= |job.f.blocks|
    ensures Inv(job, t, h, t.needsSrc)
  {
    hide BlockInv, NamesOk;
    NotDue(job, t, h, t.needsSrc + {p}, t.needsSrc, p);
  }

  lemma StillComplete(f: Func, code: seq<Block>, code': seq<Block>, b: nat)
    requires |code'| == |code| && forall c :: 0 <= c < |code| && c != b ==> code'[c] == code[c]
    ensures forall c: nat :: c < b && Complete(f, code, c) ==> Complete(f, code', c)
  {
  }

  ghost predicate DefsNamed(multi: set<Ssa>, info: map<Ssa, Info>, was: seq<Ssa>, now: seq<Ssa>, b: nat, ip: nat) {
    && |now| <= |was|
    && forall j :: 0 <= j < |now| ==>
         if was[j] in multi then now[j] in info && info[now[j]] == Info(was[j], DefAt(b, ip, j)) else now[j] == was[j]
  }

  lemma NameAppend(multi: set<Ssa>, info0: map<Ssa, Info>, info: map<Ssa, Info>, was: seq<Ssa>, now: seq<Ssa>, b: nat, ip: nat, x: Ssa)
    requires DefsNamed(multi, info, was, now, b, ip) && |now| < |was| && x !in info && MoreInfo(info0, info) && was[|now|] in multi
    ensures var info' := info[x := Info(was[|now|], DefAt(b, ip, |now|))]; DefsNamed(multi, info', was, now + [x], b, ip) && MoreInfo(info0, info')
  {
  }

  lemma NamedInstr(multi: set<Ssa>, info: map<Ssa, Info>, v: map<Ssa, Ssa>, was: Instr, now: Instr, b: nat, ip: nat)
    requires UsesOk(multi, v, was.uses, now.uses) && |now.uses| == |was.uses|
    requires DefsNamed(multi, info, was.defs, now.defs, b, ip) && |now.defs| == |was.defs|
    ensures InstrOk(multi, Origs(info), v, was, now) && InstrSites(multi, info, was, now, b, ip)
  {
    hide UseOk;
  }

  ghost predicate UsesOk(multi: set<Ssa>, v: map<Ssa, Ssa>, was: seq<Ssa>, now: seq<Ssa>) {
    |now| <= |was| && forall j :: 0 <= j < |now| ==> UseOk(multi, v, was[j], now[j])
  }

  lemma UsesStay(job: Job, s: Ssa, t: Tables, t': Tables, b: nat, was: seq<Ssa>, now: seq<Ssa>)
    requires Searched(job, s, t, t') && b < |t.defs| && UsesOk(job.multi, t.defs[b], was, now)
    ensures UsesOk(job.multi, t'.defs[b], was, now)
  {
    assert SearchedBlock(job, s, t, t', b);
  }

  lemma UsesAppend(multi: set<Ssa>, v: map<Ssa, Ssa>, was: seq<Ssa>, now: seq<Ssa>, x: Ssa)
    requires UsesOk(multi, v, was, now) && |now| < |was| && UseOk(multi, v, was[|now|], x)
    ensures UsesOk(multi, v, was, now + [x])
  {
  }

  /** A use has a version in its block, or every path to the block defines the value. */
  lemma UseKnown(job: Job, t: Tables, h: History, due: set<nat>, b: nat, ip: nat, j: nat)
    requires Inv(job, t, h, due) && Strict(job.f) && b < |job.f.blocks| && ip == |h.code[b]| < |job.f.blocks[b]|
    requires j < |job.f.blocks[b][ip].uses| && job.f.blocks[b][ip].uses[j] in job.multi
    ensures job.f.blocks[b][ip].uses[j] in t.defs[b] || CoveredIn(job.f, b, job.f.blocks[b][ip].uses[j])
  {
    hide Versions, Defines, UseCovered, CoveredIn;
    var u := job.f.blocks[b][ip].uses[j];
    assert BlockInv(job, t, h, due, b);
    VersionsKeys(job.multi, h.entry[b], job.f.blocks[b], h.code[b], ip, u);
    assert UseCovered(job.f, b, ip, u);
    if !Defines(job.f.blocks[b], ip, u) {
      UseFromOutside(job.f, b, ip, u);
    }
  }

  lemma HasPredecessor(f: Func, b: nat, s: Ssa)
    requires f.Valid() && CoveredIn(f, b, s)
    ensures f.pred[b] != [] && f.pred[b][0] < b
  {
  }

  /** The block asked for is at the front; the others are earlier, and all have a version or depend on the
      blocks before them. */
  ghost predicate WorkOk(job: Job, t: Tables, s: Ssa, b0: nat, w: seq<nat>) {
    && w != [] && w[0] == b0 && (forall i :: 0 < i < |w| ==> w[i] < b0)
    && (forall i :: 0 <= i < |w| ==> IsSettled(t.defs, s, w[i]) || CoveredIn(job.f, w[i], s))
  }

  lemma PushedAreCovered(job: Job, t: Tables, h: History, due: set<nat>, b: nat, b0: nat, s: Ssa, worklist: seq<nat>, work: seq<nat>)
    requires Inv(job, t, h, due) && b <= b0 < |job.f.blocks| && CoveredIn(job.f, b, s) && s in job.multi
    requires forall c :: 0 <= c < b0 ==> Complete(job.f, h.code, c)
    requires WorkOk(job, t, s, b0, worklist) && worklist < work
    requires forall i :: |worklist| <= i < |work| ==> work[i] in job.f.pred[b] && work[i] < b && !IsSettled(t.defs, s, work[i])
    ensures WorkOk(job, t, s, b0, work) && work[Smallest(work)] < b
  {
    hide BlockInv, CoveredIn, Complete, NamesOk, IsSettled;
    forall i | 0 <= i < |work|
      ensures IsSettled(t.defs, s, work[i]) || CoveredIn(job.f, work[i], s)
    {
      if i < |worklist| {
        assert work[i] == worklist[i];
      } else {
        PushedIsCovered(job, t, h, due, b, work[i], s);
      }
    }
    assert work[|worklist|] < b;
    assert forall i :: 0 <= i < |worklist| ==> work[i] == worklist[i];
  }

  lemma PushedIsCovered(job: Job, t: Tables, h: History, due: set<nat>, b: nat, p: nat, s: Ssa)
    requires Inv(job, t, h, due) && b < |job.f.blocks| && CoveredIn(job.f, b, s) && s in job.multi
    requires p in job.f.pred[b] && p < b && !IsSettled(t.defs, s, p) && Complete(job.f, h.code, p)
    ensures CoveredIn(job.f, p, s)
  {
    hide BlockInv, CoveredIn, Complete, NamesOk;
    DependsOnBefore(job, t, h, due, b, p, s);
  }

  lemma SearchedMore(job: Job, s: Ssa, t: Tables, t1: Tables, t2: Tables, b: nat, worklist: seq<nat>)
    requires Searched(job, s, t, t1) && Searched(job, s, t1, t2)
    ensures Searched(job, s, t, t2)
    ensures s in job.multi && b < |t1.defs| && b < |t2.defs| && s !in t1.defs[b] && s in t2.defs[b] ==> Missing(job, t2) < Missing(job, t1)
    ensures forall i :: 0 <= i < |worklist| && IsSettled(t1.defs, s, worklist[i]) ==> IsSettled(t2.defs, s, worklist[i])
  {
    hide Missing, BackEdges;
    SearchedTwice(job, s, t, t1, t2);
    forall i | 0 <= i < |worklist| && IsSettled(t1.defs, s, worklist[i])
      ensures IsSettled(t2.defs, s, worklist[i])
    {
      assert SearchedBlock(job, s, t1, t2, worklist[i]);
    }
  }

  // ----- Counting definitions -----

  function BlockDefs(block: Block, n: nat): multiset<Ssa>
    requires n <= |block|
  {
    if n == 0 then multiset{} else BlockDefs(block, n - 1) + multiset(block[n - 1].defs)
  }

  function AllDefs(blocks: seq<Block>, n: nat): multiset<Ssa>
    requires n <= |blocks|
  {
    if n == 0 then multiset{} else AllDefs(blocks, n - 1) + BlockDefs(blocks[n - 1], |blocks[n - 1]|)
  }

  /** The number of definitions of each value. */
  method CountDefs(f: Func) returns (numDefs: multiset<Ssa>)
    ensures numDefs == AllDefs(f.blocks, |f.blocks|)
  {
    numDefs := multiset{};
    for b := 0 to |f.blocks|
      invariant numDefs == AllDefs(f.blocks, b)
    {
      for k := 0 to |f.blocks[b]|
        invariant numDefs == AllDefs(f.blocks, b) + BlockDefs(f.blocks[b], k)
      {
        numDefs := numDefs + multiset(f.blocks[b][k].defs);
      }
    }
  }

  lemma InSeq(xs: seq<Ssa>, i: nat, j: nat, s: Ssa)
    requires i < |xs| && xs[i] == s
    ensures multiset(xs)[s] >= 1
    ensures j < |xs| && xs[j] == s && i != j ==> multiset(xs)[s] >= 2
  {
    assert s in xs;
    if j < |xs| && xs[j] == s && i != j {
      var lo, hi := if i < j then i else j, if i < j then j else i;
      assert xs == xs[..hi] + xs[hi..] && xs[..hi][lo] == s && xs[hi..][0] == s;
      assert s in xs[..hi] && s in xs[hi..];
    }
  }

  lemma {:induction false} InBlock(block: Block, n: nat, k: nat, j: nat, k': nat, j': nat, s: Ssa)
    requires k < n <= |block| && j < |block[k].defs| && block[k].defs[j] == s
    ensures BlockDefs(block, n)[s] >= 1
    ensures k' < n && j' < |block[k'].defs| && block[k'].defs[j'] == s && (k != k' || j != j') ==> BlockDefs(block, n)[s] >= 2
    decreases n
  {
    if k == n - 1 {
      InSeq(block[k].defs, j, j', s);
      if k' < n - 1 && j' < |block[k'].defs| && block[k'].defs[j'] == s {
        InBlock(block, n - 1, k', j', k', j', s);
      }
    } else {
      InBlock(block, n - 1, k, j, k', j', s);
      if k' == n - 1 && j' < |block[k'].defs| && block[k'].defs[j'] == s {
        InSeq(block[k'].defs, j', j', s);
      }
    }
  }

  /** Two definitions of a value count twice. */
  lemma {:induction false} TwoDefs(blocks: seq<Block>, n: nat, b: nat, k: nat, j: nat, b': nat, k': nat, j': nat, s: Ssa)
    requires b < n <= |blocks| && k < |blocks[b]| && j < |blocks[b][k].defs| && blocks[b][k].defs[j] == s
    ensures AllDefs(blocks, n)[s] >= 1
    ensures b' < n && k' < |blocks[b']| && j' < |blocks[b'][k'].defs| && blocks[b'][k'].defs[j'] == s && (b != b' || k != k' || j != j') ==>
              AllDefs(blocks, n)[s] >= 2
    decreases n
  {
    if b == n - 1 {
      InBlock(blocks[b], |blocks[b]|, k, j, k', j', s);
      if b' < n - 1 && k' < |blocks[b']| && j' < |blocks[b'][k'].defs| && blocks[b'][k'].defs[j'] == s {
        TwoDefs(blocks, n - 1, b', k', j', b', k', j', s);
      }
    } else {
      TwoDefs(blocks, n - 1, b, k, j, b', k', j', s);
      if b' == n - 1 && k' < |blocks[b']| && j' < |blocks[b'][k'].defs| && blocks[b'][k'].defs[j'] == s {
        InBlock(blocks[b'], |blocks[b']|, k', j', k', j', s);
      }
    }
  }

  // ----- The result -----

  /** A definition of the new program: a phi or an instruction. */
  ghost predicate DefinedAt(blocks: seq<NewBlock>, site: Site, x: Ssa) {
    match site
    case PhiAt(b) => b < |blocks| && exists i :: 0 <= i < |blocks[b].phiDsts| && blocks[b].phiDsts[i].1 == x
    case DefAt(b, k, j) => b < |blocks| && k < |blocks[b].code| && j < |blocks[b].code[k].defs| && blocks[b].code[k].defs[j] == x
  }

  /** Every name is defined in one place, and by one phi where that is the start of a block. */
  ghost predicate InSsaForm(blocks: seq<NewBlock>) {
    && (forall x, site, site' :: DefinedAt(blocks, site, x) && DefinedAt(blocks, site', x) ==> site == site')
    && (forall b, i, j :: 0 <= b < |blocks| && 0 <= i < j < |blocks[b].phiDsts| ==> blocks[b].phiDsts[i].1 != blocks[b].phiDsts[j].1)
  }

  /** Every phi has exactly one source from each block before it. */
  ghost predicate PhisComplete(f: Func, blocks: seq<NewBlock>) {
    && |blocks| == |f.pred|
    && forall p: nat, b: nat :: f.IsEdge(p, b) && p < |blocks| && blocks[b].phiDsts != [] ==> SameIds(blocks[b].phiDsts, blocks[p].phiSrcs)
  }

  ghost predicate SameIds(phiDsts: seq<(nat, Ssa)>, phiSrcs: seq<(nat, Ssa)>) {
    && |phiSrcs| == |phiDsts| && (forall i :: 0 <= i < |phiDsts| ==> phiSrcs[i].0 == phiDsts[i].0)
    && (forall i, j :: 0 <= i < j < |phiDsts| ==> phiDsts[i].0 != phiDsts[j].0)
  }

  /** The new program keeps track of the versions of all values. */
  ghost predicate Repaired(f: Func, blocks: seq<NewBlock>) {
    exists multi, orig, phis, entry, ends :: Repairs(f, blocks, multi, orig, phis, entry, ends)
  }

  ghost predicate Repairs(f: Func, blocks: seq<NewBlock>, multi: set<Ssa>, orig: map<Ssa, Ssa>, phis: seq<seq<Phi>>,
                          entry: seq<map<Ssa, Ssa>>, ends: seq<map<Ssa, Ssa>>) {
    NamesApart(f, orig) && EdgesPlaced(f, phis, blocks) && Tracks(f, multi, orig, phis, Codes(blocks), entry, ends)
  }

  /** What repairing is for: on every path, whatever the instructions compute, the new program does to the
      machine what the original does, so every use reads the value most recently defined. */
  lemma SameMeaning<V, W>(m: Meaning<V, W>, f: Func, blocks: seq<NewBlock>, path: seq<nat>, e: Env<V>, w: W)
    requires Repaired(f, blocks) && f.IsPath(path)
    ensures |blocks| == |f.blocks| && Run(m, f, path, e, w).1 == RunNew(m, f, blocks, path, e, w).1
  {
    hide Tracks, EdgesPlaced, NamesApart;
    var multi, orig, phis, entry, ends :| Repairs(f, blocks, multi, orig, phis, entry, ends);
    assert |blocks| == |f.blocks| by { SameLength(f, multi, orig, phis, blocks, entry, ends); }
    RunsAgree(m, f, multi, orig, phis, blocks, entry, ends, path, e, w);
  }

  lemma SameLength(f: Func, multi: set<Ssa>, orig: map<Ssa, Ssa>, phis: seq<seq<Phi>>, blocks: seq<NewBlock>,
                   entry: seq<map<Ssa, Ssa>>, ends: seq<map<Ssa, Ssa>>)
    requires Tracks(f, multi, orig, phis, Codes(blocks), entry, ends)
    ensures |blocks| == |f.blocks|
  {
  }

  // ----- After the first pass and the back edges -----

  lemma NowTracked(job: Job, t: Tables, h: History)
    requires Inv(job, t, h, {}) && AllComplete(job.f, h.code)
    ensures Tracks(job.f, job.multi, Origs(h.info), t.phis, h.code, h.entry, t.defs) && Sited(job.f, job.multi, h.info, t.phis, h.code, t.nextPhi)
    ensures |t.phis| == |h.code| == |job.f.blocks| == |job.f.pred|
    ensures NamesApart(job.f, Origs(h.info)) && forall b :: 0 <= b < |t.phis| && t.phis[b] != [] ==> |job.f.pred[b]| > 1
  {
    hide BlockOk, Versions, AreVersions, PhisOk, SitesOk, CoveredIn, NamesOk, Complete;
    forall b: nat | b < |job.f.blocks|
      ensures BlockTracks(job.f, job.multi, Origs(h.info), t.phis[b], job.f.blocks[b], h.code[b], h.entry[b], t.defs, b)
      ensures SitesOk(job.multi, h.info, job.f.blocks[b], h.code[b], t.phis[b], t.nextPhi, b) && (t.phis[b] != [] ==> |job.f.pred[b]| > 1)
    {
      assert BlockInv(job, t, h, {}, b);
      BlockNowTracked(job, t, h, b);
    }
    StayApart(job, t, h);
  }

  lemma StayApart(job: Job, t: Tables, h: History)
    requires job.Valid() && NamesOk(job, t, h)
    ensures NamesApart(job.f, Origs(h.info))
  {
    forall b, k | 0 <= b < |job.f.blocks| && 0 <= k < |job.f.blocks[b]|
      ensures InstrApart(job.f.blocks[b][k], Origs(h.info))
    {
      assert Below(job.f.blocks[b][k], job.base);
    }
  }

  lemma BlockNowTracked(job: Job, t: Tables, h: History, b: nat)
    requires BlockInv(job, t, h, {}, b) && AllComplete(job.f, h.code)
    ensures BlockTracks(job.f, job.multi, Origs(h.info), t.phis[b], job.f.blocks[b], h.code[b], h.entry[b], t.defs, b)
  {
    hide BlockOk, Versions, AreVersions, PhisOk, SitesOk, CoveredIn, PhiPartly, SameBefore;
    assert Complete(job.f, h.code, b);
    forall s | s in h.entry[b]
      ensures Joined(job.f, t.phis[b], h.entry[b], t.defs, b, s)
    {
      NowJoined(job, t, h, b, s);
    }
    EntryIsLater(job, t, h, b);
  }

  lemma EntryIsLater(job: Job, t: Tables, h: History, b: nat)
    requires BlockInv(job, t, h, {}, b)
    ensures b == 0 ==> h.entry[b] == map[]
  {
    hide BlockOk, Versions, AreVersions, PhisOk, SitesOk, PhiPartly, SameBefore, Covered;
    assert b == 0 ==> h.entry[b].Keys == {};
  }

  lemma NowJoined(job: Job, t: Tables, h: History, b: nat, s: Ssa)
    requires BlockInv(job, t, h, {}, b) && s in h.entry[b]
    ensures Joined(job.f, t.phis[b], h.entry[b], t.defs, b, s)
  {
    hide BlockOk, Versions, AreVersions, PhisOk, SitesOk, CoveredIn, Complete, Origs;
    forall i | 0 <= i < |t.phis[b]| && t.phis[b][i].orig == s
      ensures PhiJoins(job.f, t.phis[b][i], t.defs, b)
    {
      assert PhiPartly(job.f, h.code, t.defs, {}, t.phis[b][i], b);
      forall p | p in job.f.pred[b]
        ensures p in t.phis[b][i].srcs && SourceOk(job.f, h.code, t.defs, t.phis[b][i], p)
      {
      }
    }
    if HasPhi(t.phis[b], s) {
      var i :| 0 <= i < |t.phis[b]| && t.phis[b][i].orig == s;
      assert PhiJoins(job.f, t.phis[b][i], t.defs, b);
    }
  }

  // ----- Placing the phis -----

  method PhiDsts(phis: seq<Phi>) returns (dsts: seq<(nat, Ssa)>)
    ensures Receives(phis, dsts)
  {
    dsts := [];
    for i := 0 to |phis|
      invariant |dsts| == i && forall j :: 0 <= j < i ==> dsts[j] == (phis[j].id, phis[j].dst)
    {
      dsts := dsts + [(phis[i].id, phis[i].dst)];
    }
  }

  method PhiSrcs(phis: seq<Phi>, rep: map<Ssa, Ssa>, p: nat) returns (srcs: seq<(nat, Ssa)>)
    requires forall i :: 0 <= i < |phis| ==> p in phis[i].srcs
    ensures HandsOver(RenamePhis(phis, Finder(rep)), p, srcs)
  {
    srcs := [];
    for i := 0 to |phis|
      invariant |srcs| == i && forall j :: 0 <= j < i ==> srcs[j] == (phis[j].id, Find(rep, phis[j].srcs[p]))
    {
      srcs := srcs + [(phis[i].id, Find(rep, phis[i].srcs[p]))];
    }
  }

  /** Every phi of `b` has a source from each block before `b`, and there are several of those. */
  ghost predicate Placeable(f: Func, phis: seq<seq<Phi>>) {
    && |phis| == |f.blocks| == |f.pred|
    && (forall b, i, p {:trigger p in phis[b][i].srcs} :: 0 <= b < |phis| && 0 <= i < |phis[b]| && p in f.pred[b] ==> p in phis[b][i].srcs)
    && (forall b :: 0 <= b < |phis| && phis[b] != [] ==> |f.pred[b]| > 1)
  }

  ghost predicate SrcsPlaced(f: Func, phis: seq<seq<Phi>>, p: nat, phiSrcs: seq<(nat, Ssa)>) {
    forall b: nat :: f.IsEdge(p, b) && b < |phis| && phis[b] != [] ==> HandsOver(phis[b], p, phiSrcs)
  }

  /** The instructions with their final names, and the phis around them. */
  method Place(f: Func, code: seq<Block>, phis: seq<seq<Phi>>, rep: map<Ssa, Ssa>) returns (blocks: seq<NewBlock>)
    requires f.Valid() && Placeable(f, phis) && |code| == |f.blocks|
    ensures EdgesPlaced(f, RenameAllPhis(phis, Finder(rep)), blocks) && Codes(blocks) == RenameBlocks(code, Finder(rep))
  {
    hide HandsOver, RenamePhis, RenameBlock;
    blocks := [];
    ghost var renamed := RenameAllPhis(phis, Finder(rep));
    for b := 0 to |f.blocks|
      invariant |blocks| == b && forall c :: 0 <= c < b ==> blocks[c].code == RenameBlock(code[c], Finder(rep))
      invariant forall c :: 0 <= c < b ==> Receives(renamed[c], blocks[c].phiDsts) && SrcsPlaced(f, renamed, c, blocks[c].phiSrcs)
    {
      var dsts := PhiDsts(phis[b]);
      var srcs: seq<(nat, Ssa)> := [];
      if |f.succ[b]| == 1 {
        var s := f.succ[b][0];
        assert s in f.succ[b] && b in f.pred[s];
        srcs := PhiSrcs(phis[s], rep, b);
      }
      SrcsArePlaced(f, phis, Finder(rep), b, srcs);
      RenamedReceive(phis[b], Finder(rep), dsts);
      blocks := blocks + [NewBlock(dsts, RenameBlock(code[b], Finder(rep)), srcs)];
    }
    AllPlaced(f, renamed, blocks);
  }

  lemma AllPlaced(f: Func, phis: seq<seq<Phi>>, blocks: seq<NewBlock>)
    requires |phis| == |blocks| == |f.pred|
    requires forall c :: 0 <= c < |blocks| ==> Receives(phis[c], blocks[c].phiDsts) && SrcsPlaced(f, phis, c, blocks[c].phiSrcs)
    ensures EdgesPlaced(f, phis, blocks)
  {
    hide HandsOver, Receives;
    forall p: nat, b: nat | f.IsEdge(p, b) && p < |blocks| && phis[b] != []
      ensures HandsOver(phis[b], p, blocks[p].phiSrcs)
    {
      assert SrcsPlaced(f, phis, p, blocks[p].phiSrcs);
    }
  }

  lemma SrcsArePlaced(f: Func, phis: seq<seq<Phi>>, g: Ssa -> Ssa, p: nat, srcs: seq<(nat, Ssa)>)
    requires f.Valid() && Placeable(f, phis) && p < |f.blocks|
    requires |f.succ[p]| == 1 ==> f.succ[p][0] < |phis| && HandsOver(RenamePhis(phis[f.succ[p][0]], g), p, srcs)
    ensures SrcsPlaced(f, RenameAllPhis(phis, g), p, srcs)
  {
    hide HandsOver;
    forall b: nat | f.IsEdge(p, b) && b < |phis| && phis[b] != []
      ensures HandsOver(RenamePhis(phis[b], g), p, srcs)
    {
      assert p in f.pred[b] && b in f.succ[p];
    }
  }

  lemma RenamedReceive(phis: seq<Phi>, g: Ssa -> Ssa, dsts: seq<(nat, Ssa)>)
    requires Receives(phis, dsts)
    ensures Receives(RenamePhis(phis, g), dsts)
  {
  }

  lemma IsPlaceable(w: Tracked, phis: seq<seq<Phi>>, rep: map<Ssa, Ssa>)
    requires PruneInv(w, phis, rep) && |phis| == |w.f.blocks| && forall b :: 0 <= b < |phis| && phis[b] != [] ==> |w.f.pred[b]| > 1
    ensures Placeable(w.f, phis)
  {
    hide Tracks, Sited, NamesApart, RenameBlocks, RenameMaps;
    var g := Finder(rep);
    var renamed := RenameAllPhis(phis, g);
    forall b, i, p | 0 <= b < |phis| && 0 <= i < |phis[b]| && p in w.f.pred[b]
      ensures p in phis[b][i].srcs
    {
      assert renamed[b][i] == RenamePhi(phis[b][i], g);
      SourceNamed(w.f, w.multi, Origs(w.info), renamed, RenameBlocks(w.code, g), RenameMaps(w.entry, g), RenameMaps(w.ends, g), b, i, p);
    }
  }

  // ----- One definition for every name -----

  /** All values with more than one definition are renamed. */
  ghost predicate AllRenamed(f: Func, multi: set<Ssa>) {
    forall s :: AllDefs(f.blocks, |f.blocks|)[s] > 1 ==> s in multi
  }

  lemma SiteIsKnown(f: Func, multi: set<Ssa>, info: map<Ssa, Info>, phis: seq<seq<Phi>>, blocks: seq<NewBlock>, nextPhi: nat,
                    entry: seq<map<Ssa, Ssa>>, ends: seq<map<Ssa, Ssa>>, site: Site, x: Ssa)
    requires Repairs(f, blocks, multi, Origs(info), phis, entry, ends) && Sited(f, multi, info, phis, Codes(blocks), nextPhi)
    requires DefinedAt(blocks, site, x)
    ensures x in info ==> info[x].site == site
    ensures x !in info ==> site.DefAt? && site.b < |f.blocks| && site.ip < |f.blocks[site.b]| && site.j < |f.blocks[site.b][site.ip].defs|
                             && f.blocks[site.b][site.ip].defs[site.j] == x && x !in multi
  {
    hide Joined, AreVersions, PhisOk, HandsOver, Versions;
    var b := site.b;
    SameLength(f, multi, Origs(info), phis, blocks, entry, ends);
    assert BlockTracks(f, multi, Origs(info), phis[b], f.blocks[b], Codes(blocks)[b], entry[b], ends, b);
    assert SitesOk(multi, info, f.blocks[b], Codes(blocks)[b], phis[b], nextPhi, b);
    if site.PhiAt? {
      var i :| 0 <= i < |blocks[b].phiDsts| && blocks[b].phiDsts[i].1 == x;
      assert Receives(phis[b], blocks[b].phiDsts);
      PhiInfo(multi, info, f.blocks[b], Codes(blocks)[b], phis[b], nextPhi, b, i);
    } else {
      DefIsKnown(multi, info, Versions(multi, entry[b], f.blocks[b], blocks[b].code, site.ip), f.blocks[b][site.ip], blocks[b].code[site.ip], b, site.ip, site.j);
    }
  }

  lemma DefIsKnown(multi: set<Ssa>, info: map<Ssa, Info>, v: map<Ssa, Ssa>, was: Instr, now: Instr, b: nat, ip: nat, j: nat)
    requires InstrOk(multi, Origs(info), v, was, now) && InstrApart(was, Origs(info)) && InstrSites(multi, info, was, now, b, ip) && j < |now.defs|
    ensures if was.defs[j] in multi then now.defs[j] in info && info[now.defs[j]].site == DefAt(b, ip, j) else now.defs[j] == was.defs[j] && now.defs[j] !in info
  {
    assert DefOk(multi, Origs(info), was.defs[j], now.defs[j]);
  }

  lemma IsInSsaForm(f: Func, multi: set<Ssa>, info: map<Ssa, Info>, phis: seq<seq<Phi>>, blocks: seq<NewBlock>, nextPhi: nat,
                    entry: seq<map<Ssa, Ssa>>, ends: seq<map<Ssa, Ssa>>)
    requires Repairs(f, blocks, multi, Origs(info), phis, entry, ends) && Sited(f, multi, info, phis, Codes(blocks), nextPhi) && AllRenamed(f, multi)
    ensures InSsaForm(blocks) && PhisComplete(f, blocks)
  {
    hide Repairs, Sited, DefinedAt, Origs;
    forall x, site, site' | DefinedAt(blocks, site, x) && DefinedAt(blocks, site', x)
      ensures site == site'
    {
      SiteIsKnown(f, multi, info, phis, blocks, nextPhi, entry, ends, site, x);
      SiteIsKnown(f, multi, info, phis, blocks, nextPhi, entry, ends, site', x);
      if x !in info && site != site' {
        TwoDefs(f.blocks, |f.blocks|, site.b, site.ip, site.j, site'.b, site'.ip, site'.j, x);
      }
    }
    PhisAreApart(f, multi, info, phis, blocks, nextPhi, entry, ends);
  }

  lemma PhisAreApart(f: Func, multi: set<Ssa>, info: map<Ssa, Info>, phis: seq<seq<Phi>>, blocks: seq<NewBlock>, nextPhi: nat,
                     entry: seq<map<Ssa, Ssa>>, ends: seq<map<Ssa, Ssa>>)
    requires Repairs(f, blocks, multi, Origs(info), phis, entry, ends) && Sited(f, multi, info, phis, Codes(blocks), nextPhi)
    ensures PhisComplete(f, blocks)
    ensures forall b, i, j :: 0 <= b < |blocks| && 0 <= i < j < |blocks[b].phiDsts| ==> blocks[b].phiDsts[i].1 != blocks[b].phiDsts[j].1
  {
    hide Joined, AreVersions, BlockOk, Versions, Origs, Sited;
    forall b, i, j | 0 <= b < |blocks| && 0 <= i < j < |blocks[b].phiDsts|
      ensures blocks[b].phiDsts[i].1 != blocks[b].phiDsts[j].1
    {
      assert Receives(phis[b], blocks[b].phiDsts);
      PhiDstsDiffer(f, multi, info, phis, Codes(blocks), nextPhi, entry, ends, b, i, b, j);
    }
    forall p: nat, b: nat | f.IsEdge(p, b) && p < |blocks| && blocks[b].phiDsts != []
      ensures SameIds(blocks[b].phiDsts, blocks[p].phiSrcs)
    {
      assert Receives(phis[b], blocks[b].phiDsts);
      assert HandsOver(phis[b], p, blocks[p].phiSrcs);
      assert BlockTracks(f, multi, Origs(info), phis[b], f.blocks[b], Codes(blocks)[b], entry[b], ends, b);
    }
  }

  // ----- The pass -----

  lemma NothingRenamed(w: Tracked, phis: seq<seq<Phi>>)
    requires w.f.Valid() && NamesApart(w.f, Origs(w.info)) && Tracks(w.f, w.multi, Origs(w.info), phis, w.code, w.entry, w.ends)
    requires Sited(w.f, w.multi, w.info, phis, w.code, w.nextPhi)
    ensures PruneInv(w, phis, map[])
  {
    hide Tracks, Sited, NamesApart;
    var g := Finder(map[]);
    forall m: map<Ssa, Ssa>
      ensures RenameMap(m, g) == m
    {
    }
    assert RenameAllPhis(phis, g) == phis by {
      assert forall b :: 0 <= b < |phis| ==> RenamePhis(phis[b], g) == phis[b];
    }
    assert RenameBlocks(w.code, g) == w.code by {
      assert forall xs: seq<Ssa> :: RenameSeq(xs, g) == xs;
      assert forall b :: 0 <= b < |w.code| ==> RenameBlock(w.code[b], g) == w.code[b];
    }
    assert RenameMaps(w.entry, g) == w.entry && RenameMaps(w.ends, g) == w.ends;
  }

  /** A function that is in SSA form already stays as it is. */
  lemma AlreadyInSsaForm(f: Func, blocks: seq<NewBlock>)
    requires f.Valid() && AllRenamed(f, {}) && |blocks| == |f.blocks|
    requires forall b :: 0 <= b < |blocks| ==> blocks[b] == NewBlock([], f.blocks[b], [])
    ensures Repaired(f, blocks) && InSsaForm(blocks) && PhisComplete(f, blocks)
  {
    var n := |f.blocks|;
    var nothing: map<Ssa, Ssa> := map[];
    var info: map<Ssa, Info> := map[];
    var phis, entry := seq(n, b => []), seq(n, b => nothing);
    hide BlockTracks, SitesOk, InSsaForm, PhisComplete;
    forall b: nat | b < n
      ensures BlockTracks(f, {}, Origs(info), [], f.blocks[b], f.blocks[b], nothing, entry, b) && SitesOk({}, info, f.blocks[b], f.blocks[b], [], 0, b)
    {
      BlockUnchanged(f, entry, b);
    }
    assert Repairs(f, blocks, {}, Origs(info), phis, entry, entry);
    IsInSsaForm(f, {}, info, phis, blocks, 0, entry, entry);
  }

  lemma BlockUnchanged(f: Func, entry: seq<map<Ssa, Ssa>>, b: nat)
    requires f.Valid() && b < |f.blocks| == |entry| && entry[b] == map[]
    ensures BlockTracks(f, {}, Origs(map[]), [], f.blocks[b], f.blocks[b], map[], entry, b) && SitesOk({}, map[], f.blocks[b], f.blocks[b], [], 0, b)
  {
    hide Versions;
    forall n: nat | n <= |f.blocks[b]|
      ensures Versions({}, map[], f.blocks[b], f.blocks[b], n) == map[]
    {
      NoVersions(f.blocks[b], n);
    }
  }

  lemma {:induction false} NoVersions(block: Block, n: nat)
    requires n <= |block|
    ensures Versions({}, map[], block, block, n) == map[]
  {
    if n > 0 {
      NoVersions(block, n - 1);
      NoDefVersions(block[n - 1].defs, |block[n - 1].defs|);
    }
  }

  lemma {:induction false} NoDefVersions(defs: seq<Ssa>, n: nat)
    requires n <= |defs|
    ensures DefVersions({}, map[], defs, defs, n) == map[]
  {
    if n > 0 {
      NoDefVersions(defs, n - 1);
    }
  }

  /** Repairs SSA form.  The new program does what the function does, every name in it has one definition,
      and every phi one source per block before it. */
  method RepairSsa(f: Func, nextSsa: nat, hasLoop: bool) returns (blocks: seq<NewBlock>)
    requires Job(f, {}, nextSsa).Valid() && Strict(f)
    ensures Repaired(f, blocks) && InSsaForm(blocks) && PhisComplete(f, blocks)
  {
    hide Strict, Inv, Repaired, InSsaForm, PhisComplete, PruneInv, Tracks, Sited, NamesApart, AllDefs, EdgesPlaced, Placeable;
    var numDefs := CountDefs(f);
    var multi := set s | s in numDefs && numDefs[s] > 1;
    if multi == {} {
      blocks := seq(|f.blocks|, b requires 0 <= b < |f.blocks| => NewBlock([], f.blocks[b], []));
      AlreadyInSsaForm(f, blocks);
      return;
    }
    var job := Job(f, multi, nextSsa);
    var tracker := new DefTracker(job);
    var code := tracker.RewriteBlocks(job);
    tracker.FillSources(job);
    NowTracked(job, tracker.t, tracker.h);
    ghost var w := Tracked(f, multi, tracker.h.info, code, tracker.h.entry, tracker.t.defs, tracker.t.nextPhi);
    NothingRenamed(w, tracker.t.phis);
    var phis, rep := tracker.t.phis, map[];
    if hasLoop {
      phis, rep := RemoveRedundantPhis(phis, w);
    }
    IsPlaceable(w, phis, rep);
    blocks := Place(f, code, phis, rep);
    NowRepaired(w, phis, rep, blocks);
  }

  lemma NowRepaired(w: Tracked, phis: seq<seq<Phi>>, rep: map<Ssa, Ssa>, blocks: seq<NewBlock>)
    requires PruneInv(w, phis, rep) && AllRenamed(w.f, w.multi)
    requires EdgesPlaced(w.f, RenameAllPhis(phis, Finder(rep)), blocks) && Codes(blocks) == RenameBlocks(w.code, Finder(rep))
    ensures Repaired(w.f, blocks) && InSsaForm(blocks) && PhisComplete(w.f, blocks)
  {
    hide Tracks, Sited, NamesApart, EdgesPlaced, AllRenamed, InSsaForm, PhisComplete;
    var g := Finder(rep);
    assert Repairs(w.f, blocks, w.multi, Origs(w.info), RenameAllPhis(phis, g), RenameMaps(w.entry, g), RenameMaps(w.ends, g));
    IsInSsaForm(w.f, w.multi, w.info, RenameAllPhis(phis, g), blocks, w.nextPhi, RenameMaps(w.entry, g), RenameMaps(w.ends, g));
  }
}
