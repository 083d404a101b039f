/** The tables of crates/deko-nak/src/repair_ssa.rs: which version of a value each block ends with, and
    which phis that takes. */
module SsaTables {
  import opened SsaRuns

  /** The values with several definitions, and the first name that no value of the function has. */
  datatype Job = Job(f: Func, multi: set<Ssa>, base: nat)
  {
    ghost predicate Valid() {
      f.Valid() && forall b, k {:trigger f.blocks[b][k]} :: 0 <= b < |f.blocks| && 0 <= k < |f.blocks[b]| ==> Below(f.blocks[b][k], base)
    }
  }

  ghost predicate Below(instr: Instr, base: nat) {
    (forall j :: 0 <= j < |instr.uses| ==> instr.uses[j] < base) && (forall j :: 0 <= j < |instr.defs| ==> instr.defs[j] < base)
  }

  /** Where a name is defined. */
  datatype Site = PhiAt(b: nat) | DefAt(b: nat, ip: nat, j: nat)

  datatype Info = Info(orig: Ssa, site: Site)

  function Origs(info: map<Ssa, Info>): map<Ssa, Ssa> {
    map x | x in info :: info[x].orig
  }

  /** Per block the version of each value at its end, as far as it is known, and its phis; the blocks whose
      back edges still have to be given to phis; the next names. */
  datatype Tables = Tables(defs: seq<map<Ssa, Ssa>>, phis: seq<seq<Phi>>, needsSrc: set<nat>, nextSsa: nat, nextPhi: nat)

  /** What the tables stand for: the version of each value at the start of a block, where names come from,
      and the instructions rewritten so far. */
  datatype History = History(entry: seq<map<Ssa, Ssa>>, info: map<Ssa, Info>, code: seq<Block>)

  // ----- Paths to a definition -----

  ghost predicate Defines(block: Block, n: nat, s: Ssa) {
    exists k :: 0 <= k < n && k < |block| && s in block[k].defs
  }

  ghost predicate DefinedOn(f: Func, path: seq<nat>, s: Ssa) {
    exists i :: 0 <= i < |path| && path[i] < |f.blocks| && Defines(f.blocks[path[i]], |f.blocks[path[i]]|, s)
  }

  /** Every path to the end of the block defines the value. */
  ghost predicate Covered(f: Func, b: nat, s: Ssa) {
    forall path :: f.IsPath(path) && path[|path| - 1] == b ==> DefinedOn(f, path, s)
  }

  /** Every path to the start of the block does. */
  ghost predicate CoveredIn(f: Func, b: nat, s: Ssa) {
    b != 0 && b < |f.pred| && forall p :: p in f.pred[b] ==> Covered(f, p, s)
  }

  /** For every use and every path from the start to it there is a definition on the path. */
  ghost predicate UseCovered(f: Func, b: nat, k: nat, s: Ssa)
    requires b < |f.blocks|
  {
    forall path {:trigger f.IsPath(path)} :: f.IsPath(path) && path[|path| - 1] == b ==>
      DefinedOn(f, path[..|path| - 1], s) || Defines(f.blocks[b], k, s)
  }

  ghost predicate Strict(f: Func) {
    forall b, k, j {:trigger f.blocks[b][k].uses[j]} :: 0 <= b < |f.blocks| && 0 <= k < |f.blocks[b]| && 0 <= j < |f.blocks[b][k].uses| ==>
      UseCovered(f, b, k, f.blocks[b][k].uses[j])
  }

  lemma LongerPath(f: Func, path: seq<nat>, b: nat)
    requires f.IsPath(path) && f.IsEdge(path[|path| - 1], b) && |f.pred| == |f.blocks|
    ensures f.IsPath(path + [b])
  {
    var longer := path + [b];
    forall i | 0 <= i < |longer| - 1
      ensures f.IsEdge(longer[i], longer[i + 1])
    {
      if i < |path| - 1 {
        assert f.IsEdge(path[i], path[i + 1]);
      }
    }
  }

  /** A use without a definition before it in its block depends on the blocks before. */
  lemma UseFromOutside(f: Func, b: nat, k: nat, s: Ssa)
    requires f.Valid() && b < |f.blocks| && UseCovered(f, b, k, s) && !Defines(f.blocks[b], k, s)
    ensures CoveredIn(f, b, s)
  {
    hide DefinedOn, Defines;
    assert f.IsPath([0]) && [0][..0] == [];
    NothingOnEmptyPath(f, s);
    assert b != 0;
    forall p | p in f.pred[b]
      ensures Covered(f, p, s)
    {
      forall path | f.IsPath(path) && path[|path| - 1] == p
        ensures DefinedOn(f, path, s)
      {
        assert f.IsEdge(p, b);
        LongerPath(f, path, b);
        var longer := path + [b];
        assert longer[..|longer| - 1] == path && longer[|longer| - 1] == b;
      }
    }
  }

  lemma NothingOnEmptyPath(f: Func, s: Ssa)
    ensures !DefinedOn(f, [], s)
  {
  }

  /** So does the end of a block that has no definition at all. */
  lemma CoveredBack(f: Func, b: nat, s: Ssa)
    requires f.Valid() && b < |f.blocks| && Covered(f, b, s) && !Defines(f.blocks[b], |f.blocks[b]|, s)
    ensures CoveredIn(f, b, s)
  {
    forall path | f.IsPath(path) && path[|path| - 1] == b
      ensures DefinedOn(f, path[..|path| - 1], s)
    {
      var i :| 0 <= i < |path| && path[i] < |f.blocks| && Defines(f.blocks[path[i]], |f.blocks[path[i]]|, s);
      assert path[..|path| - 1][i] == path[i];
    }
    UseFromOutside(f, b, |f.blocks[b]|, s);
  }

  // ----- The invariant -----

  ghost predicate Complete(f: Func, code: seq<Block>, p: nat) {
    p < |f.blocks| && p < |code| && |code[p]| == |f.blocks[p]|
  }

  /** A phi has its sources from the blocks before; those from back edges may still be due. */
  ghost predicate PhiPartly(f: Func, code: seq<Block>, defs: seq<map<Ssa, Ssa>>, due: set<nat>, phi: Phi, b: nat)
    requires b < |f.pred|
  {
    && (forall p :: p in f.pred[b] && p !in phi.srcs ==> p >= b && p in due)
    && (forall p :: p in phi.srcs ==> p in f.pred[b] && SourceOk(f, code, defs, phi, p))
  }

  ghost predicate SourceOk(f: Func, code: seq<Block>, defs: seq<map<Ssa, Ssa>>, phi: Phi, p: nat)
    requires p in phi.srcs
  {
    p < |defs| && Complete(f, code, p) && phi.orig in defs[p] && phi.srcs[p] == defs[p][phi.orig]
  }

  ghost predicate HasPhi(phis: seq<Phi>, s: Ssa) {
    exists i :: 0 <= i < |phis| && phis[i].orig == s
  }

  ghost predicate SameBefore(f: Func, code: seq<Block>, defs: seq<map<Ssa, Ssa>>, b: nat, s: Ssa, v: Ssa)
    requires b < |f.pred|
  {
    forall p :: p in f.pred[b] ==> p < b && p < |defs| && Complete(f, code, p) && s in defs[p] && defs[p][s] == v
  }

  /** One block of the tables. */
  ghost predicate BlockInv(job: Job, t: Tables, h: History, due: set<nat>, b: nat) {
    && b < |job.f.blocks| == |job.f.pred| == |t.defs| == |t.phis| == |h.entry| == |h.code|
    && BlockOk(job.multi, Origs(h.info), h.entry[b], job.f.blocks[b], h.code[b])
    && t.defs[b] == Versions(job.multi, h.entry[b], job.f.blocks[b], h.code[b], |h.code[b]|)
    && AreVersions(Origs(h.info), h.entry[b]) && h.entry[b].Keys <= job.multi
    && PhisOk(t.phis[b], h.entry[b]) && (t.phis[b] != [] ==> |job.f.pred[b]| > 1)
    && SitesOk(job.multi, h.info, job.f.blocks[b], h.code[b], t.phis[b], t.nextPhi, b)
    && (forall i :: 0 <= i < |t.phis[b]| ==> PhiPartly(job.f, h.code, t.defs, due, t.phis[b][i], b))
    && (forall s :: s in h.entry[b] ==> CoveredIn(job.f, b, s) && (HasPhi(t.phis[b], s) || SameBefore(job.f, h.code, t.defs, b, s, h.entry[b][s])))
  }

  ghost predicate SitesOk(multi: set<Ssa>, info: map<Ssa, Info>, was: Block, now: Block, phis: seq<Phi>, nextPhi: nat, b: nat) {
    && (forall i :: 0 <= i < |phis| ==> phis[i].dst in info && info[phis[i].dst].site == PhiAt(b) && phis[i].id < nextPhi)
    && (forall k :: 0 <= k < |now| && k < |was| ==> InstrSites(multi, info, was[k], now[k], b, k))
  }

  ghost predicate InstrSites(multi: set<Ssa>, info: map<Ssa, Info>, was: Instr, now: Instr, b: nat, k: nat) {
    forall j :: 0 <= j < |now.defs| && j < |was.defs| && was.defs[j] in multi ==> now.defs[j] in info && info[now.defs[j]].site == DefAt(b, k, j)
  }

  ghost predicate NamesOk(job: Job, t: Tables, h: History) {
    && job.base <= t.nextSsa && (forall x :: x in h.info <==> job.base <= x < t.nextSsa)
  }

  ghost predicate Inv(job: Job, t: Tables, h: History, due: set<nat>) {
    && job.Valid() && NamesOk(job, t, h)
    && |job.f.blocks| == |t.defs| == |t.phis| == |h.entry| == |h.code|
    && (forall b: nat :: b < |job.f.blocks| ==> BlockInv(job, t, h, due, b))
  }

  // ----- Versions -----

  lemma {:induction false} DefVersionsExtend(multi: set<Ssa>, v: map<Ssa, Ssa>, was: seq<Ssa>, now: seq<Ssa>, n: nat, s: Ssa, x: Ssa)
    requires n <= |was| == |now| && s !in DefVersions(multi, v, was, now, n)
    ensures DefVersions(multi, v[s := x], was, now, n) == DefVersions(multi, v, was, now, n)[s := x] && s !in v
  {
    if n > 0 {
      DefVersionsExtend(multi, v, was, now, n - 1, s, x);
    }
  }

  /** A value that no definition has touched can be given a version at the start of the block. */
  lemma {:induction false} VersionsExtend(multi: set<Ssa>, entry: map<Ssa, Ssa>, was: Block, now: Block, n: nat, s: Ssa, x: Ssa)
    requires n <= |was| && n <= |now| && forall k :: 0 <= k < n ==> |was[k].defs| == |now[k].defs|
    requires s !in Versions(multi, entry, was, now, n)
    ensures Versions(multi, entry[s := x], was, now, n) == Versions(multi, entry, was, now, n)[s := x] && s !in entry
  {
    if n > 0 {
      DefVersionsExtend(multi, Versions(multi, entry, was, now, n - 1), was[n - 1].defs, now[n - 1].defs, |was[n - 1].defs|, s, x);
      VersionsExtend(multi, entry, was, now, n - 1, s, x);
    }
  }

  lemma {:induction false} DefVersionsKeys(multi: set<Ssa>, v: map<Ssa, Ssa>, was: seq<Ssa>, now: seq<Ssa>, n: nat, s: Ssa)
    requires n <= |was| == |now|
    ensures s in DefVersions(multi, v, was, now, n) <==> s in v || (s in multi && s in was[..n])
  {
    if n > 0 {
      DefVersionsKeys(multi, v, was, now, n - 1, s);
      assert was[..n] == was[..n - 1] + [was[n - 1]];
    }
  }

  lemma {:induction false} VersionsKeys(multi: set<Ssa>, entry: map<Ssa, Ssa>, was: Block, now: Block, n: nat, s: Ssa)
    requires n <= |was| && n <= |now| && forall k :: 0 <= k < n ==> |was[k].defs| == |now[k].defs|
    ensures s in Versions(multi, entry, was, now, n) <==> s in entry || (s in multi && Defines(was, n, s))
  {
    if n > 0 {
      VersionsKeys(multi, entry, was, now, n - 1, s);
      DefVersionsKeys(multi, Versions(multi, entry, was, now, n - 1), was[n - 1].defs, now[n - 1].defs, |was[n - 1].defs|, s);
      assert was[n - 1].defs[..|was[n - 1].defs|] == was[n - 1].defs;
    }
  }

  lemma DefinesLater(block: Block, k: nat, n: nat, s: Ssa)
    requires k <= n && Defines(block, k, s)
    ensures Defines(block, n, s)
  {
  }

  /** The instructions do not notice a version for a value they neither use nor define. */
  lemma BlockExtend(multi: set<Ssa>, orig: map<Ssa, Ssa>, entry: map<Ssa, Ssa>, was: Block, now: Block, s: Ssa, x: Ssa)
    requires BlockOk(multi, orig, entry, was, now) && s !in Versions(multi, entry, was, now, |now|)
    ensures BlockOk(multi, orig, entry[s := x], was, now) && s !in entry
    ensures Versions(multi, entry[s := x], was, now, |now|) == Versions(multi, entry, was, now, |now|)[s := x]
  {
    hide Versions, InstrOk, Defines;
    VersionsExtend(multi, entry, was, now, |now|, s, x);
    VersionsKeys(multi, entry, was, now, |now|, s);
    forall k | 0 <= k < |now|
      ensures InstrOk(multi, orig, Versions(multi, entry[s := x], was, now, k), was[k], now[k])
    {
      VersionsKeys(multi, entry, was, now, k, s);
      if Defines(was, k, s) {
        DefinesLater(was, k, |now|, s);
      }
      VersionsExtend(multi, entry, was, now, k, s, x);
      InstrExtend(multi, orig, Versions(multi, entry, was, now, k), was[k], now[k], s, x);
    }
  }

  lemma InstrExtend(multi: set<Ssa>, orig: map<Ssa, Ssa>, v: map<Ssa, Ssa>, was: Instr, now: Instr, s: Ssa, x: Ssa)
    requires InstrOk(multi, orig, v, was, now) && s !in v
    ensures InstrOk(multi, orig, v[s := x], was, now)
  {
    forall j | 0 <= j < |was.uses|
      ensures UseOk(multi, v[s := x], was.uses[j], now.uses[j])
    {
      assert UseOk(multi, v, was.uses[j], now.uses[j]);
    }
  }

  /** More names make no difference either. */
  lemma BlockMoreNames(multi: set<Ssa>, orig: map<Ssa, Ssa>, orig': map<Ssa, Ssa>, entry: map<Ssa, Ssa>, was: Block, now: Block)
    requires BlockOk(multi, orig, entry, was, now) && forall x :: x in orig ==> x in orig' && orig'[x] == orig[x]
    ensures BlockOk(multi, orig', entry, was, now)
  {
    hide Versions;
    forall k | 0 <= k < |now|
      ensures InstrOk(multi, orig', Versions(multi, entry, was, now, k), was[k], now[k])
    {
      assert InstrOk(multi, orig, Versions(multi, entry, was, now, k), was[k], now[k]);
      forall j | 0 <= j < |was[k].defs|
        ensures DefOk(multi, orig', was[k].defs[j], now[k].defs[j])
      {
        assert DefOk(multi, orig, was[k].defs[j], now[k].defs[j]);
      }
    }
  }

  // ----- How the tables grow -----

  ghost predicate Extends(m: map<Ssa, Ssa>, m': map<Ssa, Ssa>) {
    forall s :: s in m ==> s in m' && m'[s] == m[s]
  }

  ghost predicate MoreInfo(info: map<Ssa, Info>, info': map<Ssa, Info>) {
    forall x :: x in info ==> x in info' && info'[x] == info[x]
  }

  /** The tables know more, and what they know about complete blocks is as before. */
  ghost predicate Grows(job: Job, t: Tables, h: History, t': Tables, h': History) {
    && |t'.defs| == |t.defs| && |t'.phis| == |t.phis| && |h'.entry| == |h.entry| && |h'.code| == |h.code|
    && (forall p: nat :: Complete(job.f, h.code, p) && p < |t.defs| ==> Complete(job.f, h'.code, p) && Extends(t.defs[p], t'.defs[p]))
    && MoreInfo(h.info, h'.info) && t.nextPhi <= t'.nextPhi
  }

  /** A block to which nothing is added keeps its invariant. */
  lemma UntouchedBlock(job: Job, t: Tables, h: History, due: set<nat>, t': Tables, h': History, due': set<nat>, b: nat)
    requires BlockInv(job, t, h, due, b) && Grows(job, t, h, t', h') && due <= due'
    requires t'.phis[b] == t.phis[b] && t'.defs[b] == t.defs[b] && h'.entry[b] == h.entry[b] && h'.code[b] == h.code[b]
    ensures BlockInv(job, t', h', due', b)
  {
    hide BlockOk, Versions, AreVersions, PhisOk, SitesOk, PhiPartly, CoveredIn, HasPhi, SameBefore, MoreInfo;
    MoreOrigs(h.info, h'.info);
    BlockMoreNames(job.multi, Origs(h.info), Origs(h'.info), h.entry[b], job.f.blocks[b], h.code[b]);
    VersionsStay(Origs(h.info), Origs(h'.info), h.entry[b]);
    SitesStay(job.multi, h.info, h'.info, job.f.blocks[b], h.code[b], t.phis[b], t.nextPhi, t'.nextPhi, b);
    forall i | 0 <= i < |t.phis[b]|
      ensures PhiPartly(job.f, h'.code, t'.defs, due', t.phis[b][i], b)
    {
      PhiStays(job, t, h, due, t', h', due', b, t.phis[b][i]);
    }
    forall s | s in h.entry[b]
      ensures HasPhi(t.phis[b], s) || SameBefore(job.f, h'.code, t'.defs, b, s, h.entry[b][s])
    {
      if SameBefore(job.f, h.code, t.defs, b, s, h.entry[b][s]) {
        SameStays(job, t, h, t', h', b, s, h.entry[b][s]);
      }
    }
  }

  lemma MoreOrigs(info: map<Ssa, Info>, info': map<Ssa, Info>)
    requires MoreInfo(info, info')
    ensures forall x :: x in Origs(info) ==> x in Origs(info') && Origs(info')[x] == Origs(info)[x]
  {
  }

  lemma VersionsStay(orig: map<Ssa, Ssa>, orig': map<Ssa, Ssa>, v: map<Ssa, Ssa>)
    requires AreVersions(orig, v) && forall x :: x in orig ==> x in orig' && orig'[x] == orig[x]
    ensures AreVersions(orig', v)
  {
  }

  lemma SitesStay(multi: set<Ssa>, info: map<Ssa, Info>, info': map<Ssa, Info>, was: Block, now: Block, phis: seq<Phi>, next: nat, next': nat, b: nat)
    requires SitesOk(multi, info, was, now, phis, next, b) && MoreInfo(info, info') && next <= next'
    ensures SitesOk(multi, info', was, now, phis, next', b)
  {
    forall k | 0 <= k < |now| && k < |was|
      ensures InstrSites(multi, info', was[k], now[k], b, k)
    {
      assert InstrSites(multi, info, was[k], now[k], b, k);
    }
  }

  lemma PhiStays(job: Job, t: Tables, h: History, due: set<nat>, t': Tables, h': History, due': set<nat>, b: nat, phi: Phi)
    requires b < |job.f.pred| && PhiPartly(job.f, h.code, t.defs, due, phi, b) && Grows(job, t, h, t', h') && due <= due'
    ensures PhiPartly(job.f, h'.code, t'.defs, due', phi, b)
  {
    hide MoreInfo, Complete;
    forall p | p in phi.srcs
      ensures SourceOk(job.f, h'.code, t'.defs, phi, p)
    {
      assert SourceOk(job.f, h.code, t.defs, phi, p);
    }
  }

  lemma SameStays(job: Job, t: Tables, h: History, t': Tables, h': History, b: nat, s: Ssa, v: Ssa)
    requires b < |job.f.pred| && SameBefore(job.f, h.code, t.defs, b, s, v) && Grows(job, t, h, t', h')
    ensures SameBefore(job.f, h'.code, t'.defs, b, s, v)
  {
    hide MoreInfo, Complete;
  }

  /** Versions at the end of a block are versions. */
  lemma EndVersions(job: Job, t: Tables, h: History, due: set<nat>, b: nat)
    requires BlockInv(job, t, h, due, b)
    ensures AreVersions(Origs(h.info), t.defs[b]) && t.defs[b].Keys <= job.multi
  {
    hide CoveredIn, PhisOk, SitesOk, PhiPartly, HasPhi, SameBefore, Origs;
    VersionsAre(job.multi, Origs(h.info), h.entry[b], job.f.blocks[b], h.code[b], |h.code[b]|);
  }

  lemma {:induction false} VersionsAre(multi: set<Ssa>, orig: map<Ssa, Ssa>, entry: map<Ssa, Ssa>, was: Block, now: Block, n: nat)
    requires n <= |now| && BlockOk(multi, orig, entry, was, now) && AreVersions(orig, entry) && entry.Keys <= multi
    ensures AreVersions(orig, Versions(multi, entry, was, now, n)) && Versions(multi, entry, was, now, n).Keys <= multi
  {
    hide AreVersions;
    if n > 0 {
      VersionsAre(multi, orig, entry, was, now, n - 1);
      var v := Versions(multi, entry, was, now, n - 1);
      assert InstrOk(multi, orig, v, was[n - 1], now[n - 1]);
      DefVersionsAre(multi, orig, v, was[n - 1].defs, now[n - 1].defs, |was[n - 1].defs|);
    }
  }

  lemma {:induction false} DefVersionsAre(multi: set<Ssa>, orig: map<Ssa, Ssa>, v: map<Ssa, Ssa>, was: seq<Ssa>, now: seq<Ssa>, n: nat)
    requires n <= |was| == |now| && AreVersions(orig, v) && v.Keys <= multi && forall j :: 0 <= j < |was| ==> DefOk(multi, orig, was[j], now[j])
    ensures AreVersions(orig, DefVersions(multi, v, was, now, n)) && DefVersions(multi, v, was, now, n).Keys <= multi
  {
    if n > 0 {
      DefVersionsAre(multi, orig, v, was, now, n - 1);
      assert DefOk(multi, orig, was[n - 1], now[n - 1]);
    }
  }

  // ----- A version at the start of a block -----

  function Put(defs: seq<map<Ssa, Ssa>>, b: nat, s: Ssa, v: Ssa): seq<map<Ssa, Ssa>>
    requires b < |defs|
  {
    defs[b := With(defs[b], s, v)]
  }

  function With(m: map<Ssa, Ssa>, s: Ssa, v: Ssa): map<Ssa, Ssa> {
    m[s := v]
  }

  lemma PutGrows(job: Job, t: Tables, h: History, b: nat, s: Ssa, v: Ssa, t': Tables, h': History)
    requires b < |t.defs| && s !in t.defs[b] && t'.defs == Put(t.defs, b, s, v) && |t'.phis| == |t.phis| && |h'.entry| == |h.entry|
    requires h'.code == h.code && MoreInfo(h.info, h'.info) && t.nextPhi <= t'.nextPhi
    ensures Grows(job, t, h, t', h')
  {
  }

  /** All blocks before agree on the version: it is also the version here. */
  lemma AddCopy(job: Job, t: Tables, h: History, due: set<nat>, b: nat, s: Ssa, v: Ssa)
    requires Inv(job, t, h, due) && b < |job.f.blocks| && s in job.multi && s !in t.defs[b] && CoveredIn(job.f, b, s)
    requires SameBefore(job.f, h.code, t.defs, b, s, v) && job.f.pred[b] != []
    ensures Inv(job, t.(defs := Put(t.defs, b, s, v)), h.(entry := Put(h.entry, b, s, v)), due)
  {
    hide BlockInv, SameBefore, CoveredIn, NamesOk;
    var t', h' := t.(defs := Put(t.defs, b, s, v)), h.(entry := Put(h.entry, b, s, v));
    PutGrows(job, t, h, b, s, v, t', h');
    SameNamed(job, t, h, due, b, s, v);
    CopyHere(job, t, h, due, b, s, v);
    forall c: nat | c < |job.f.blocks|
      ensures BlockInv(job, t', h', due, c)
    {
      if c != b {
        UntouchedBlock(job, t, h, due, t', h', due, c);
      }
    }
    NamesStay(job, t, h, t', h');
  }

  lemma NamesStay(job: Job, t: Tables, h: History, t': Tables, h': History)
    requires NamesOk(job, t, h) && t'.nextSsa == t.nextSsa && h'.info == h.info
    ensures NamesOk(job, t', h')
  {
  }

  lemma SameNamed(job: Job, t: Tables, h: History, due: set<nat>, b: nat, s: Ssa, v: Ssa)
    requires Inv(job, t, h, due) && b < |job.f.pred| && SameBefore(job.f, h.code, t.defs, b, s, v) && job.f.pred[b] != []
    ensures v in Origs(h.info) && Origs(h.info)[v] == s
  {
    hide BlockInv, Origs;
    var p := job.f.pred[b][0];
    assert p in job.f.pred[b];
    EndVersions(job, t, h, due, p);
  }

  lemma CopyHere(job: Job, t: Tables, h: History, due: set<nat>, b: nat, s: Ssa, v: Ssa)
    requires BlockInv(job, t, h, due, b) && s in job.multi && s !in t.defs[b] && CoveredIn(job.f, b, s)
    requires SameBefore(job.f, h.code, t.defs, b, s, v) && v in Origs(h.info) && Origs(h.info)[v] == s
    ensures BlockInv(job, t.(defs := Put(t.defs, b, s, v)), h.(entry := Put(h.entry, b, s, v)), due, b)
  {
    hide BlockOk, Versions, PhiPartly, CoveredIn, SameBefore, SitesOk, Origs, HasPhi, MoreInfo, Complete;
    var t', h' := t.(defs := Put(t.defs, b, s, v)), h.(entry := Put(h.entry, b, s, v));
    BlockExtend(job.multi, Origs(h.info), h.entry[b], job.f.blocks[b], h.code[b], s, v);
    SameInfo(h.info);
    PutGrows(job, t, h, b, s, v, t', h');
    forall i | 0 <= i < |t.phis[b]|
      ensures PhiPartly(job.f, h.code, t'.defs, due, t.phis[b][i], b)
    {
      PhiStays(job, t, h, due, t', h', due, b, t.phis[b][i]);
    }
    forall x | x in h'.entry[b]
      ensures HasPhi(t.phis[b], x) || SameBefore(job.f, h.code, t'.defs, b, x, h'.entry[b][x])
    {
      if SameBefore(job.f, h.code, t.defs, b, x, h'.entry[b][x]) {
        SameStays(job, t, h, t', h', b, x, h'.entry[b][x]);
      }
    }
  }

  lemma SameInfo(info: map<Ssa, Info>)
    ensures MoreInfo(info, info)
  {
  }

  // ----- A phi -----

  function BackEdges(f: Func, b: nat): set<nat>
    requires b < |f.pred|
  {
    set p | p in f.pred[b] && p >= b
  }

  /** A phi with the versions from the blocks before; back edges come later. */
  function NewPhi(f: Func, t: Tables, b: nat, s: Ssa): Phi
    requires b < |f.pred|
  {
    Phi(t.nextPhi, s, t.nextSsa, map p | p in f.pred[b] && p < b && p < |t.defs| && s in t.defs[p] :: t.defs[p][s])
  }

  function WithPhi(f: Func, t: Tables, b: nat, s: Ssa): Tables
    requires b < |f.pred| && b < |t.defs| && b < |t.phis|
  {
    Tables(Put(t.defs, b, s, t.nextSsa), t.phis[b := t.phis[b] + [NewPhi(f, t, b, s)]], t.needsSrc + BackEdges(f, b), t.nextSsa + 1, t.nextPhi + 1)
  }

  ghost function PhiHistory(t: Tables, h: History, b: nat, s: Ssa): History
    requires b < |h.entry|
  {
    History(Put(h.entry, b, s, t.nextSsa), h.info[t.nextSsa := Info(s, PhiAt(b))], h.code)
  }

  ghost predicate KnownBefore(f: Func, code: seq<Block>, defs: seq<map<Ssa, Ssa>>, b: nat, s: Ssa)
    requires b < |f.pred|
  {
    forall p :: p in f.pred[b] && p < b ==> p < |defs| && Complete(f, code, p) && s in defs[p]
  }

  lemma AddPhi(job: Job, t: Tables, h: History, due: set<nat>, b: nat, s: Ssa)
    requires Inv(job, t, h, due) && b < |job.f.blocks| && s in job.multi && s !in t.defs[b] && CoveredIn(job.f, b, s)
    requires KnownBefore(job.f, h.code, t.defs, b, s) && |job.f.pred[b]| > 1
    ensures Inv(job, WithPhi(job.f, t, b, s), PhiHistory(t, h, b, s), due + BackEdges(job.f, b))
  {
    hide BlockInv, CoveredIn, KnownBefore, BackEdges;
    var t', h' := WithPhi(job.f, t, b, s), PhiHistory(t, h, b, s);
    assert t.nextSsa !in h.info;
    PutGrows(job, t, h, b, s, t.nextSsa, t', h');
    PhiHere(job, t, h, due, b, s);
    forall c: nat | c < |job.f.blocks|
      ensures BlockInv(job, t', h', due + BackEdges(job.f, b), c)
    {
      if c != b {
        UntouchedBlock(job, t, h, due, t', h', due + BackEdges(job.f, b), c);
      }
    }
  }

  lemma PhiHere(job: Job, t: Tables, h: History, due: set<nat>, b: nat, s: Ssa)
    requires BlockInv(job, t, h, due, b) && s in job.multi && s !in t.defs[b] && CoveredIn(job.f, b, s)
    requires KnownBefore(job.f, h.code, t.defs, b, s) && t.nextSsa !in h.info && |job.f.pred[b]| > 1
    ensures BlockInv(job, WithPhi(job.f, t, b, s), PhiHistory(t, h, b, s), due + BackEdges(job.f, b), b)
  {
    hide BlockOk, Versions, PhiPartly, CoveredIn, SameBefore, SitesOk, PhisOk, HasPhi, MoreInfo, Complete, KnownBefore, BackEdges, AreVersions, NewPhi;
    var due', t', h' := due + BackEdges(job.f, b), WithPhi(job.f, t, b, s), PhiHistory(t, h, b, s);
    var phi := NewPhi(job.f, t, b, s);
    OneMoreName(h.info, t.nextSsa, s, b);
    MoreOrigs(h.info, h'.info);
    BlockExtend(job.multi, Origs(h.info), h.entry[b], job.f.blocks[b], h.code[b], s, t.nextSsa);
    BlockMoreNames(job.multi, Origs(h.info), Origs(h'.info), h'.entry[b], job.f.blocks[b], h.code[b]);
    VersionsStay(Origs(h.info), Origs(h'.info), h.entry[b]);
    VersionAdded(Origs(h'.info), h.entry[b], s, t.nextSsa);
    PutGrows(job, t, h, b, s, t.nextSsa, t', h');
    PhisAppend(job.multi, h.info, h'.info, job.f.blocks[b], h.code[b], t.phis[b], t.nextPhi, h.entry[b], b, s, t.nextSsa, phi.srcs);
    assert phi == Phi(t.nextPhi, s, t.nextSsa, phi.srcs) by { PhiShape(job.f, t, b, s); }
    forall i | 0 <= i < |t'.phis[b]|
      ensures PhiPartly(job.f, h.code, t'.defs, due', t'.phis[b][i], b)
    {
      if i < |t.phis[b]| {
        PhiStays(job, t, h, due, t', h', due', b, t.phis[b][i]);
      } else {
        NewPhiPartly(job, t, h, due', t', h', b, s);
      }
    }
    forall x | x in h'.entry[b]
      ensures HasPhi(t'.phis[b], x) || SameBefore(job.f, h.code, t'.defs, b, x, h'.entry[b][x])
    {
      PhiJoinsEntry(t.phis[b], phi, x);
      if x != s && SameBefore(job.f, h.code, t.defs, b, x, h.entry[b][x]) {
        SameStays(job, t, h, t', h', b, x, h.entry[b][x]);
      }
    }
  }

  lemma PhiShape(f: Func, t: Tables, b: nat, s: Ssa)
    requires b < |f.pred|
    ensures NewPhi(f, t, b, s) == Phi(t.nextPhi, s, t.nextSsa, NewPhi(f, t, b, s).srcs)
  {
  }

  lemma OneMoreName(info: map<Ssa, Info>, x: Ssa, s: Ssa, b: nat)
    requires x !in info
    ensures var info' := info[x := Info(s, PhiAt(b))]; MoreInfo(info, info') && x in Origs(info') && Origs(info')[x] == s
  {
  }

  lemma VersionAdded(orig: map<Ssa, Ssa>, v: map<Ssa, Ssa>, s: Ssa, x: Ssa)
    requires AreVersions(orig, v) && x in orig && orig[x] == s
    ensures AreVersions(orig, With(v, s, x))
  {
  }

  lemma PhiJoinsEntry(phis: seq<Phi>, phi: Phi, x: Ssa)
    ensures HasPhi(phis, x) || phi.orig == x ==> HasPhi(phis + [phi], x)
  {
    if HasPhi(phis, x) {
      var i :| 0 <= i < |phis| && phis[i].orig == x;
      assert (phis + [phi])[i].orig == x;
    } else if phi.orig == x {
      assert (phis + [phi])[|phis|].orig == x;
    }
  }

  lemma PhisAppend(multi: set<Ssa>, info: map<Ssa, Info>, info': map<Ssa, Info>, was: Block, now: Block, phis: seq<Phi>, next: nat, entry: map<Ssa, Ssa>,
                   b: nat, s: Ssa, x: Ssa, srcs: map<nat, Ssa>)
    requires SitesOk(multi, info, was, now, phis, next, b) && PhisOk(phis, entry) && s !in entry
    requires MoreInfo(info, info') && x in info' && info'[x] == Info(s, PhiAt(b))
    ensures SitesOk(multi, info', was, now, phis + [Phi(next, s, x, srcs)], next + 1, b)
    ensures PhisOk(phis + [Phi(next, s, x, srcs)], With(entry, s, x))
  {
    SitesStay(multi, info, info', was, now, phis, next, next + 1, b);
  }

  lemma NewPhiPartly(job: Job, t: Tables, h: History, due': set<nat>, t': Tables, h': History, b: nat, s: Ssa)
    requires b < |job.f.pred| && b < |t.defs| && b < |t.phis| && Grows(job, t, h, t', h') && h'.code == h.code
    requires KnownBefore(job.f, h.code, t.defs, b, s) && BackEdges(job.f, b) <= due' && |t'.defs| == |t.defs|
    ensures PhiPartly(job.f, h.code, t'.defs, due', NewPhi(job.f, t, b, s), b)
  {
    hide MoreInfo, Complete;
  }

  // ----- A source from a back edge -----

  function WithSource(t: Tables, b: nat, i: nat, p: nat, v: Ssa): Tables
    requires b < |t.phis| && i < |t.phis[b]|
  {
    t.(phis := t.phis[b := t.phis[b][i := FilledPhi(t.phis[b][i], p, v)]])
  }

  function FilledPhi(phi: Phi, p: nat, v: Ssa): Phi {
    phi.(srcs := With(phi.srcs, p, v))
  }

  lemma AddSource(job: Job, t: Tables, h: History, due: set<nat>, b: nat, i: nat, p: nat)
    requires Inv(job, t, h, due) && b < |job.f.blocks| && i < |t.phis[b]| && p in job.f.pred[b] && Complete(job.f, h.code, p)
    requires p < |t.defs| && t.phis[b][i].orig in t.defs[p]
    ensures Inv(job, WithSource(t, b, i, p, t.defs[p][t.phis[b][i].orig]), h, due)
  {
    hide BlockInv;
    var t' := WithSource(t, b, i, p, t.defs[p][t.phis[b][i].orig]);
    SameInfo(h.info);
    forall c: nat | c < |job.f.blocks|
      ensures BlockInv(job, t', h, due, c)
    {
      if c != b {
        UntouchedBlock(job, t, h, due, t', h, due, c);
      } else {
        SourceHere(job, t, h, due, b, i, p);
      }
    }
  }

  lemma SourceHere(job: Job, t: Tables, h: History, due: set<nat>, b: nat, i: nat, p: nat)
    requires BlockInv(job, t, h, due, b) && i < |t.phis[b]| && p in job.f.pred[b] && Complete(job.f, h.code, p)
    requires p < |t.defs| && t.phis[b][i].orig in t.defs[p]
    ensures BlockInv(job, WithSource(t, b, i, p, t.defs[p][t.phis[b][i].orig]), h, due, b)
  {
    hide BlockOk, Versions, AreVersions, PhiPartly, CoveredIn, SameBefore, Complete, Origs, InstrSites, HasPhi;
    var t' := WithSource(t, b, i, p, t.defs[p][t.phis[b][i].orig]);
    forall j | 0 <= j < |t'.phis[b]|
      ensures PhiPartly(job.f, h.code, t.defs, due, t'.phis[b][j], b)
    {
      if j == i {
        FilledPartly(job.f, h.code, t.defs, due, t.phis[b][i], b, p);
      }
    }
    forall s | s in h.entry[b]
      ensures HasPhi(t'.phis[b], s) || SameBefore(job.f, h.code, t.defs, b, s, h.entry[b][s])
    {
      SamePhis(t.phis[b], t'.phis[b], s);
    }
  }

  lemma SamePhis(phis: seq<Phi>, phis': seq<Phi>, s: Ssa)
    requires |phis| == |phis'| && forall i :: 0 <= i < |phis| ==> phis'[i].orig == phis[i].orig
    ensures HasPhi(phis, s) ==> HasPhi(phis', s)
  {
    if HasPhi(phis, s) {
      var i :| 0 <= i < |phis| && phis[i].orig == s;
      assert phis'[i].orig == s;
    }
  }

  lemma FilledPartly(f: Func, code: seq<Block>, defs: seq<map<Ssa, Ssa>>, due: set<nat>, phi: Phi, b: nat, p: nat)
    requires b < |f.pred| && PhiPartly(f, code, defs, due, phi, b) && p in f.pred[b] && Complete(f, code, p)
    requires p < |defs| && phi.orig in defs[p]
    ensures PhiPartly(f, code, defs, due, FilledPhi(phi, p, defs[p][phi.orig]), b)
  {
    hide Complete;
    var phi' := FilledPhi(phi, p, defs[p][phi.orig]);
    forall q | q in phi'.srcs
      ensures q in f.pred[b] && SourceOk(f, code, defs, phi', q)
    {
      if q != p {
        assert SourceOk(f, code, defs, phi, q);
      }
    }
  }

  /** A block whose back edges have been given to all phis is not due any more. */
  lemma NotDue(job: Job, t: Tables, h: History, due: set<nat>, due': set<nat>, p: nat)
    requires Inv(job, t, h, due) && due <= due' + {p}
    requires forall b, i {:trigger t.phis[b][i]} :: 0 <= b < |t.phis| && 0 <= i < |t.phis[b]| && b < |job.f.pred| && p in job.f.pred[b] && p !in due' ==>
               p in t.phis[b][i].srcs
    ensures Inv(job, t, h, due')
  {
    hide BlockOk, AreVersions, PhisOk, SitesOk, CoveredIn, HasPhi, SameBefore, Versions, SourceOk, NamesOk;
    forall b: nat | b < |job.f.blocks|
      ensures BlockInv(job, t, h, due', b)
    {
      assert BlockInv(job, t, h, due, b);
      forall i | 0 <= i < |t.phis[b]|
        ensures PhiPartly(job.f, h.code, t.defs, due', t.phis[b][i], b)
      {
        assert PhiPartly(job.f, h.code, t.defs, due, t.phis[b][i], b);
      }
    }
  }

  // ----- An instruction -----

  lemma {:induction false} VersionsPrefix(multi: set<Ssa>, entry: map<Ssa, Ssa>, was: Block, now: Block, more: Block, n: nat)
    requires n <= |was| && n <= |now| && forall k :: 0 <= k < n ==> |was[k].defs| == |now[k].defs|
    ensures Versions(multi, entry, was, now + more, n) == Versions(multi, entry, was, now, n)
  {
    if n > 0 {
      VersionsPrefix(multi, entry, was, now, more, n - 1);
    }
  }

  lemma BlockAppend(multi: set<Ssa>, orig: map<Ssa, Ssa>, entry: map<Ssa, Ssa>, was: Block, now: Block, instr: Instr)
    requires BlockOk(multi, orig, entry, was, now) && |now| < |was|
    requires InstrOk(multi, orig, Versions(multi, entry, was, now, |now|), was[|now|], instr)
    ensures BlockOk(multi, orig, entry, was, now + [instr])
    ensures Versions(multi, entry, was, now + [instr], |now| + 1)
         == DefVersions(multi, Versions(multi, entry, was, now, |now|), was[|now|].defs, instr.defs, |instr.defs|)
  {
    hide InstrOk;
    assert |was[|now|].defs| == |instr.defs| by { SameDefs(multi, orig, Versions(multi, entry, was, now, |now|), was[|now|], instr); }
    VersionsPrefix(multi, entry, was, now, [instr], |now|);
    forall k | 0 <= k < |now| + 1
      ensures InstrOk(multi, orig, Versions(multi, entry, was, now + [instr], k), was[k], (now + [instr])[k])
    {
      VersionsPrefix(multi, entry, was, now, [instr], k);
    }
  }

  lemma SameDefs(multi: set<Ssa>, orig: map<Ssa, Ssa>, v: map<Ssa, Ssa>, was: Instr, now: Instr)
    requires InstrOk(multi, orig, v, was, now)
    ensures |was.defs| == |now.defs|
  {
  }

  /** The tables after the next instruction of block `b`. */
  function WithInstr(job: Job, t: Tables, b: nat, was: Instr, now: Instr, next: nat): Tables
    requires b < |t.defs| && |was.defs| == |now.defs|
  {
    t.(defs := t.defs[b := DefVersions(job.multi, t.defs[b], was.defs, now.defs, |was.defs|)], nextSsa := next)
  }

  ghost function InstrHistory(h: History, b: nat, now: Instr, info: map<Ssa, Info>): History
    requires b < |h.code|
  {
    h.(info := info, code := h.code[b := h.code[b] + [now]])
  }

  lemma AddInstr(job: Job, t: Tables, h: History, due: set<nat>, b: nat, now: Instr, next: nat, info: map<Ssa, Info>)
    requires Inv(job, t, h, due) && b < |job.f.blocks| && |h.code[b]| < |job.f.blocks[b]| && MoreInfo(h.info, info)
    requires InstrOk(job.multi, Origs(info), t.defs[b], job.f.blocks[b][|h.code[b]|], now)
    requires InstrSites(job.multi, info, job.f.blocks[b][|h.code[b]|], now, b, |h.code[b]|)
    requires job.base <= next && forall x :: x in info <==> job.base <= x < next
    ensures |job.f.blocks[b][|h.code[b]|].defs| == |now.defs|
    ensures Inv(job, WithInstr(job, t, b, job.f.blocks[b][|h.code[b]|], now, next), InstrHistory(h, b, now, info), due)
  {
    hide BlockInv, Origs, InstrOk, InstrSites;
    var was := job.f.blocks[b][|h.code[b]|];
    SameDefs(job.multi, Origs(info), t.defs[b], was, now);
    var t', h' := WithInstr(job, t, b, was, now, next), InstrHistory(h, b, now, info);
    InstrGrows(job, t, h, b, was, now, next, info);
    forall c: nat | c < |job.f.blocks|
      ensures BlockInv(job, t', h', due, c)
    {
      if c != b {
        UntouchedBlock(job, t, h, due, t', h', due, c);
      } else {
        InstrHere(job, t, h, due, b, now, next, info);
      }
    }
  }

  lemma InstrGrows(job: Job, t: Tables, h: History, b: nat, was: Instr, now: Instr, next: nat, info: map<Ssa, Info>)
    requires b < |job.f.blocks| == |h.code| == |t.defs| && |h.code[b]| < |job.f.blocks[b]| && MoreInfo(h.info, info) && |was.defs| == |now.defs|
    ensures Grows(job, t, h, WithInstr(job, t, b, was, now, next), InstrHistory(h, b, now, info))
  {
  }

  lemma InstrHere(job: Job, t: Tables, h: History, due: set<nat>, b: nat, now: Instr, next: nat, info: map<Ssa, Info>)
    requires BlockInv(job, t, h, due, b) && |h.code[b]| < |job.f.blocks[b]| && MoreInfo(h.info, info)
    requires InstrOk(job.multi, Origs(info), t.defs[b], job.f.blocks[b][|h.code[b]|], now)
    requires InstrSites(job.multi, info, job.f.blocks[b][|h.code[b]|], now, b, |h.code[b]|)
    requires |job.f.blocks[b][|h.code[b]|].defs| == |now.defs|
    ensures BlockInv(job, WithInstr(job, t, b, job.f.blocks[b][|h.code[b]|], now, next), InstrHistory(h, b, now, info), due, b)
  {
    hide BlockOk, Versions, AreVersions, PhiPartly, CoveredIn, SameBefore, Complete, Origs, InstrSites, InstrOk, HasPhi, PhisOk, MoreInfo, DefVersions, SitesOk;
    var was := job.f.blocks[b][|h.code[b]|];
    var t', h' := WithInstr(job, t, b, was, now, next), InstrHistory(h, b, now, info);
    MoreOrigs(h.info, info);
    BlockMoreNames(job.multi, Origs(h.info), Origs(info), h.entry[b], job.f.blocks[b], h.code[b]);
    BlockAppend(job.multi, Origs(info), h.entry[b], job.f.blocks[b], h.code[b], now);
    VersionsStay(Origs(h.info), Origs(info), h.entry[b]);
    SitesAppend(job.multi, h.info, info, job.f.blocks[b], h.code[b], now, t.phis[b], t.nextPhi, b);
    InstrGrows(job, t, h, b, was, now, next, info);
    forall i | 0 <= i < |t.phis[b]|
      ensures PhiPartly(job.f, h'.code, t'.defs, due, t.phis[b][i], b)
    {
      PhiStays(job, t, h, due, t', h', due, b, t.phis[b][i]);
    }
    forall s | s in h.entry[b]
      ensures HasPhi(t.phis[b], s) || SameBefore(job.f, h'.code, t'.defs, b, s, h.entry[b][s])
    {
      if SameBefore(job.f, h.code, t.defs, b, s, h.entry[b][s]) {
        SameStays(job, t, h, t', h', b, s, h.entry[b][s]);
      }
    }
  }

  lemma SitesAppend(multi: set<Ssa>, info: map<Ssa, Info>, info': map<Ssa, Info>, was: Block, now: Block, instr: Instr, phis: seq<Phi>, next: nat, b: nat)
    requires SitesOk(multi, info, was, now, phis, next, b) && MoreInfo(info, info') && |now| < |was|
    requires InstrSites(multi, info', was[|now|], instr, b, |now|)
    ensures SitesOk(multi, info', was, now + [instr], phis, next, b)
  {
    hide InstrSites;
    SitesStay(multi, info, info', was, now, phis, next, next, b);
  }
}
