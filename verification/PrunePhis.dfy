/** Removing phis that only ever take one version (the last part of crates/deko-nak/src/repair_ssa.rs). */
module PrunePhis {
  import opened Machine
  import opened SsaRuns
  import opened SsaTables

  // ----- Other names for versions -----

  function Subst(d: Ssa, u: Ssa): Ssa -> Ssa {
    (x: Ssa) => if x == d then u else x
  }

  function RenameSeq(xs: seq<Ssa>, g: Ssa -> Ssa): seq<Ssa> {
    seq(|xs|, i requires 0 <= i < |xs| => g(xs[i]))
  }

  function RenameMap(m: map<nat, Ssa>, g: Ssa -> Ssa): map<nat, Ssa> {
    map s | s in m :: g(m[s])
  }

  function RenameInstr(instr: Instr, g: Ssa -> Ssa): Instr {
    Instr(RenameSeq(instr.uses, g), instr.defs)
  }

  function RenameBlock(block: Block, g: Ssa -> Ssa): Block {
    seq(|block|, i requires 0 <= i < |block| => RenameInstr(block[i], g))
  }

  function RenamePhi(phi: Phi, g: Ssa -> Ssa): Phi {
    phi.(srcs := RenameMap(phi.srcs, g))
  }

  function RenamePhis(phis: seq<Phi>, g: Ssa -> Ssa): seq<Phi> {
    seq(|phis|, i requires 0 <= i < |phis| => RenamePhi(phis[i], g))
  }

  function RenameBlocks(code: seq<Block>, g: Ssa -> Ssa): seq<Block> {
    seq(|code|, i requires 0 <= i < |code| => RenameBlock(code[i], g))
  }

  function RenameMaps(ms: seq<map<Ssa, Ssa>>, g: Ssa -> Ssa): seq<map<Ssa, Ssa>> {
    seq(|ms|, i requires 0 <= i < |ms| => RenameMap(ms[i], g))
  }

  function RenameAllPhis(phis: seq<seq<Phi>>, g: Ssa -> Ssa): seq<seq<Phi>> {
    seq(|phis|, i requires 0 <= i < |phis| => RenamePhis(phis[i], g))
  }

  // ----- What is tracked -----

  /** The versions of a program, tracked as `Tracks` says, with the place where each name is defined. */
  ghost predicate Sited(f: Func, multi: set<Ssa>, info: map<Ssa, Info>, phis: seq<seq<Phi>>, code: seq<Block>, nextPhi: nat) {
    && |f.blocks| == |phis| == |code|
    && forall b: nat :: b < |f.blocks| ==> SitesOk(multi, info, f.blocks[b], code[b], phis[b], nextPhi, b)
  }

  /** The instructions define no name that belongs to a phi. */
  lemma NotADef(multi: set<Ssa>, info: map<Ssa, Info>, was: Block, now: Block, phis: seq<Phi>, nextPhi: nat, b: nat, d: Ssa, k: nat, j: nat)
    requires SitesOk(multi, info, was, now, phis, nextPhi, b) && k < |now| && k < |was| && j < |now[k].defs| && j < |was[k].defs|
    requires d in info && info[d].site.PhiAt? && was[k].defs[j] in multi
    ensures now[k].defs[j] != d
  {
    assert InstrSites(multi, info, was[k], now[k], b, k);
  }

  lemma {:induction false} SubstDefVersions(multi: set<Ssa>, v: map<Ssa, Ssa>, was: seq<Ssa>, now: seq<Ssa>, n: nat, d: Ssa, u: Ssa)
    requires n <= |was| == |now| && forall j :: 0 <= j < |was| && was[j] in multi ==> now[j] != d
    ensures DefVersions(multi, RenameMap(v, Subst(d, u)), was, now, n) == RenameMap(DefVersions(multi, v, was, now, n), Subst(d, u))
  {
    if n > 0 {
      SubstDefVersions(multi, v, was, now, n - 1, d, u);
    }
  }

  lemma {:induction false} SubstVersions(multi: set<Ssa>, entry: map<Ssa, Ssa>, was: Block, now: Block, n: nat, d: Ssa, u: Ssa)
    requires n <= |was| && n <= |now| && forall k :: 0 <= k < n ==> |was[k].defs| == |now[k].defs|
    requires forall k, j :: 0 <= k < n && 0 <= j < |was[k].defs| && was[k].defs[j] in multi ==> now[k].defs[j] != d
    ensures Versions(multi, RenameMap(entry, Subst(d, u)), was, RenameBlock(now, Subst(d, u)), n) == RenameMap(Versions(multi, entry, was, now, n), Subst(d, u))
  {
    if n > 0 {
      SubstVersions(multi, entry, was, now, n - 1, d, u);
      SubstDefVersions(multi, Versions(multi, entry, was, now, n - 1), was[n - 1].defs, now[n - 1].defs, |was[n - 1].defs|, d, u);
    }
  }

  lemma SubstInstrOk(multi: set<Ssa>, orig: map<Ssa, Ssa>, v: map<Ssa, Ssa>, was: Instr, now: Instr, d: Ssa, u: Ssa)
    requires InstrOk(multi, orig, v, was, now) && InstrApart(was, orig) && d in orig
    ensures InstrOk(multi, orig, RenameMap(v, Subst(d, u)), was, RenameInstr(now, Subst(d, u)))
  {
    forall j | 0 <= j < |was.uses|
      ensures UseOk(multi, RenameMap(v, Subst(d, u)), was.uses[j], RenameInstr(now, Subst(d, u)).uses[j])
    {
      assert UseOk(multi, v, was.uses[j], now.uses[j]);
    }
  }

  lemma SubstBlockOk(multi: set<Ssa>, orig: map<Ssa, Ssa>, entry: map<Ssa, Ssa>, was: Block, now: Block, d: Ssa, u: Ssa)
    requires BlockOk(multi, orig, entry, was, now) && d in orig && forall k :: 0 <= k < |was| ==> InstrApart(was[k], orig)
    requires forall k, j :: 0 <= k < |now| && 0 <= j < |was[k].defs| && was[k].defs[j] in multi ==> now[k].defs[j] != d
    ensures BlockOk(multi, orig, RenameMap(entry, Subst(d, u)), was, RenameBlock(now, Subst(d, u)))
    ensures Versions(multi, RenameMap(entry, Subst(d, u)), was, RenameBlock(now, Subst(d, u)), |now|) == RenameMap(Versions(multi, entry, was, now, |now|), Subst(d, u))
  {
    hide InstrOk, Versions, InstrApart, RenameMap;
    SubstVersions(multi, entry, was, now, |now|, d, u);
    forall k | 0 <= k < |now|
      ensures InstrOk(multi, orig, Versions(multi, RenameMap(entry, Subst(d, u)), was, RenameBlock(now, Subst(d, u)), k), was[k], RenameBlock(now, Subst(d, u))[k])
    {
      SubstVersions(multi, entry, was, now, k, d, u);
      SubstInstrOk(multi, orig, Versions(multi, entry, was, now, k), was[k], now[k], d, u);
    }
  }

  lemma SubstAreVersions(orig: map<Ssa, Ssa>, v: map<Ssa, Ssa>, d: Ssa, u: Ssa)
    requires AreVersions(orig, v) && d in orig && u in orig && orig[u] == orig[d]
    ensures AreVersions(orig, RenameMap(v, Subst(d, u)))
  {
  }

  /** A phi whose sources are all itself or `u`. */
  ghost predicate OnlySource(f: Func, phi: Phi, b: nat, u: Ssa)
    requires b < |f.pred|
  {
    u != phi.dst && forall p :: p in f.pred[b] && p in phi.srcs ==> phi.srcs[p] == phi.dst || phi.srcs[p] == u
  }

  function Without(phis: seq<Phi>, i: nat): seq<Phi>
    requires i < |phis|
  {
    phis[..i] + phis[i + 1..]
  }

  /** The phis of block `c` when phi `i` of block `b` is removed and `u` put for it everywhere. */
  function Pruned(phis: seq<seq<Phi>>, b: nat, i: nat, u: Ssa): seq<seq<Phi>>
    requires b < |phis| && i < |phis[b]|
  {
    RenameAllPhis(phis[b := Without(phis[b], i)], Subst(phis[b][i].dst, u))
  }

  lemma PrunedPhisOk(phis: seq<Phi>, entry: map<Ssa, Ssa>, d: Ssa, u: Ssa)
    requires PhisOk(phis, entry) && forall i :: 0 <= i < |phis| ==> phis[i].dst != d
    ensures PhisOk(RenamePhis(phis, Subst(d, u)), RenameMap(entry, Subst(d, u)))
  {
  }

  lemma WithoutOk(phis: seq<Phi>, entry: map<Ssa, Ssa>, orig: map<Ssa, Ssa>, i: nat)
    requires PhisOk(phis, entry) && AreVersions(orig, entry) && i < |phis|
    ensures PhisOk(Without(phis, i), entry)
    ensures forall j :: 0 <= j < |Without(phis, i)| ==> Without(phis, i)[j].dst != phis[i].dst && Without(phis, i)[j].orig != phis[i].orig
    ensures forall j :: 0 <= j < |phis| && j != i ==> phis[j] in Without(phis, i)
  {
    var rest := Without(phis, i);
    forall j | 0 <= j < |rest|
      ensures rest[j].dst != phis[i].dst && rest[j].orig != phis[i].orig
    {
      var k := if j < i then j else j + 1;
      assert rest[j] == phis[k] && orig[phis[k].dst] == phis[k].orig && orig[phis[i].dst] == phis[i].orig;
    }
    forall j | 0 <= j < |phis| && j != i
      ensures phis[j] in rest
    {
      assert rest[if j < i then j else j - 1] == phis[j];
    }
  }

  /** Where the phi is not removed, values are joined as before. */
  lemma SubstJoined(f: Func, phis: seq<Phi>, phis': seq<Phi>, entry: map<Ssa, Ssa>, ends: seq<map<Ssa, Ssa>>, b: nat, s: Ssa, d: Ssa, u: Ssa)
    requires b < |f.pred| && s in entry && Joined(f, phis, entry, ends, b, s)
    requires forall i :: 0 <= i < |phis'| ==> phis'[i] in phis
    requires HasPhi(phis, s) ==> HasPhi(phis', s)
    ensures Joined(f, RenamePhis(phis', Subst(d, u)), RenameMap(entry, Subst(d, u)), RenameMaps(ends, Subst(d, u)), b, s)
  {
    forall i | 0 <= i < |phis'| && phis'[i].orig == s
      ensures PhiJoins(f, RenamePhi(phis'[i], Subst(d, u)), RenameMaps(ends, Subst(d, u)), b)
    {
      var j :| 0 <= j < |phis| && phis[j] == phis'[i];
      assert PhiJoins(f, phis[j], ends, b);
    }
    if HasPhi(phis, s) {
      var i :| 0 <= i < |phis'| && phis'[i].orig == s;
      assert RenamePhis(phis', Subst(d, u))[i].orig == s;
    }
  }

  /** Where it is, all blocks before agree afterwards. */
  lemma RemovedJoined(f: Func, phis: seq<Phi>, i: nat, phis': seq<Phi>, entry: map<Ssa, Ssa>, ends: seq<map<Ssa, Ssa>>, b: nat, u: Ssa)
    requires b < |f.pred| && i < |phis| && phis[i].orig in entry && entry[phis[i].orig] == phis[i].dst
    requires Joined(f, phis, entry, ends, b, phis[i].orig) && OnlySource(f, phis[i], b, u)
    requires forall j :: 0 <= j < |phis'| ==> phis'[j].orig != phis[i].orig
    ensures Joined(f, RenamePhis(phis', Subst(phis[i].dst, u)), RenameMap(entry, Subst(phis[i].dst, u)), RenameMaps(ends, Subst(phis[i].dst, u)), b, phis[i].orig)
  {
    assert PhiJoins(f, phis[i], ends, b);
  }

  /** All versions tracked at the ends of blocks are versions. */
  lemma EndsAreVersions(f: Func, multi: set<Ssa>, orig: map<Ssa, Ssa>, phis: seq<seq<Phi>>, code: seq<Block>,
                        entry: seq<map<Ssa, Ssa>>, ends: seq<map<Ssa, Ssa>>, p: nat)
    requires Tracks(f, multi, orig, phis, code, entry, ends) && p < |f.blocks|
    ensures AreVersions(orig, ends[p])
  {
    hide PhisOk, Joined, AreVersions, Versions;
    assert BlockTracks(f, multi, orig, phis[p], f.blocks[p], code[p], entry[p], ends, p);
    VersionsAre(multi, orig, entry[p], f.blocks[p], code[p], |f.blocks[p]|);
  }

  /** The sources of a phi are versions of the value that the phi is for. */
  lemma SourceNamed(f: Func, multi: set<Ssa>, orig: map<Ssa, Ssa>, phis: seq<seq<Phi>>, code: seq<Block>,
                    entry: seq<map<Ssa, Ssa>>, ends: seq<map<Ssa, Ssa>>, b: nat, i: nat, p: nat)
    requires Tracks(f, multi, orig, phis, code, entry, ends) && b < |f.blocks| && i < |phis[b]| && p in f.pred[b]
    ensures var phi := phis[b][i]; p < |ends| && p in phi.srcs && phi.orig in ends[p] && phi.srcs[p] == ends[p][phi.orig]
    ensures phis[b][i].srcs[p] in orig && orig[phis[b][i].srcs[p]] == phis[b][i].orig
  {
    hide BlockOk, Versions, AreVersions;
    assert BlockTracks(f, multi, orig, phis[b], f.blocks[b], code[b], entry[b], ends, b);
    assert Joined(f, phis[b], entry[b], ends, b, phis[b][i].orig);
    assert PhiJoins(f, phis[b][i], ends, b);
    EndsAreVersions(f, multi, orig, phis, code, entry, ends, p);
    OneVersion(orig, ends[p], phis[b][i].orig);
  }

  lemma OneVersion(orig: map<Ssa, Ssa>, v: map<Ssa, Ssa>, s: Ssa)
    requires AreVersions(orig, v) && s in v
    ensures v[s] in orig && orig[v[s]] == s
  {
  }

  /** A block after the phi `d` has been removed somewhere and `u` put for it. */
  lemma SubstBlockTracks(f: Func, multi: set<Ssa>, info: map<Ssa, Info>, phis: seq<Phi>, phis': seq<Phi>, was: Block, now: Block, nextPhi: nat,
                         entry: map<Ssa, Ssa>, ends: seq<map<Ssa, Ssa>>, b: nat, d: Ssa, u: Ssa)
    requires BlockTracks(f, multi, Origs(info), phis, was, now, entry, ends, b) && SitesOk(multi, info, was, now, phis, nextPhi, b)
    requires forall k :: 0 <= k < |was| ==> InstrApart(was[k], Origs(info))
    requires d in info && info[d].site.PhiAt? && u in Origs(info) && Origs(info)[u] == Origs(info)[d]
    requires PhisOk(phis', entry) && forall i :: 0 <= i < |phis'| ==> phis'[i].dst != d
    requires forall s :: s in entry ==>
               Joined(f, RenamePhis(phis', Subst(d, u)), RenameMap(entry, Subst(d, u)), RenameMaps(ends, Subst(d, u)), b, s)
    ensures BlockTracks(f, multi, Origs(info), RenamePhis(phis', Subst(d, u)), was, RenameBlock(now, Subst(d, u)),
                        RenameMap(entry, Subst(d, u)), RenameMaps(ends, Subst(d, u)), b)
  {
    hide BlockOk, Versions, PhisOk, Joined, AreVersions, SitesOk, InstrApart;
    SameDefLengths(multi, Origs(info), entry, was, now);
    forall k, j | 0 <= k < |now| && 0 <= j < |was[k].defs| && was[k].defs[j] in multi
      ensures now[k].defs[j] != d
    {
      NotADef(multi, info, was, now, phis, nextPhi, b, d, k, j);
    }
    SubstBlockOk(multi, Origs(info), entry, was, now, d, u);
    SubstAreVersions(Origs(info), entry, d, u);
    PrunedPhisOk(phis', entry, d, u);
  }

  lemma SameDefLengths(multi: set<Ssa>, orig: map<Ssa, Ssa>, entry: map<Ssa, Ssa>, was: Block, now: Block)
    requires BlockOk(multi, orig, entry, was, now)
    ensures |now| <= |was| && forall k :: 0 <= k < |now| ==> |was[k].defs| == |now[k].defs|
  {
  }

  /** A phi belongs to one block. */
  lemma OtherPhi(multi: set<Ssa>, info: map<Ssa, Info>, was: Block, now: Block, phis: seq<Phi>, nextPhi: nat, c: nat, b: nat, d: Ssa)
    requires SitesOk(multi, info, was, now, phis, nextPhi, c) && c != b && d in info && info[d].site == PhiAt(b)
    ensures forall i :: 0 <= i < |phis| ==> phis[i].dst != d
  {
  }

  lemma PhiInfo(multi: set<Ssa>, info: map<Ssa, Info>, was: Block, now: Block, phis: seq<Phi>, nextPhi: nat, b: nat, i: nat)
    requires SitesOk(multi, info, was, now, phis, nextPhi, b) && i < |phis|
    ensures phis[i].dst in info && info[phis[i].dst].site == PhiAt(b)
  {
  }

  /** Removing a phi whose sources are all itself or `u`, and putting `u` for it, keeps track of all versions. */
  lemma PruneTracks(f: Func, multi: set<Ssa>, info: map<Ssa, Info>, phis: seq<seq<Phi>>, code: seq<Block>, nextPhi: nat,
                    entry: seq<map<Ssa, Ssa>>, ends: seq<map<Ssa, Ssa>>, b: nat, i: nat, u: Ssa)
    requires Tracks(f, multi, Origs(info), phis, code, entry, ends) && Sited(f, multi, info, phis, code, nextPhi) && NamesApart(f, Origs(info))
    requires b < |f.blocks| && i < |phis[b]| && OnlySource(f, phis[b][i], b, u) && u in info && info[u].orig == phis[b][i].orig
    ensures var g := Subst(phis[b][i].dst, u);
            Tracks(f, multi, Origs(info), Pruned(phis, b, i, u), RenameBlocks(code, g), RenameMaps(entry, g), RenameMaps(ends, g))
    ensures Sited(f, multi, info, Pruned(phis, b, i, u), RenameBlocks(code, Subst(phis[b][i].dst, u)), nextPhi)
  {
    hide BlockOk, Versions, PhisOk, Joined, AreVersions, SitesOk, InstrApart, OnlySource, RenameMap, RenameBlock, RenamePhis;
    var phi := phis[b][i];
    var d, g := phi.dst, Subst(phi.dst, u);
    var phis' := phis[b := Without(phis[b], i)];
    assert BlockTracks(f, multi, Origs(info), phis[b], f.blocks[b], code[b], entry[b], ends, b);
    PhiInfo(multi, info, f.blocks[b], code[b], phis[b], nextPhi, b, i);
    PhiVersion(Origs(info), phis[b], entry[b], i);
    WithoutOk(phis[b], entry[b], Origs(info), i);
    forall c: nat | c < |f.blocks|
      ensures BlockTracks(f, multi, Origs(info), RenamePhis(phis'[c], g), f.blocks[c], RenameBlock(code[c], g), RenameMap(entry[c], g), RenameMaps(ends, g), c)
      ensures SitesOk(multi, info, f.blocks[c], RenameBlock(code[c], g), RenamePhis(phis'[c], g), nextPhi, c)
    {
      assert BlockTracks(f, multi, Origs(info), phis[c], f.blocks[c], code[c], entry[c], ends, c);
      BlockApart(f, Origs(info), c);
      if c == b {
        JoinedHere(f, Origs(info), phis[b], i, entry[b], ends, b, u);
      } else {
        OtherPhi(multi, info, f.blocks[c], code[c], phis[c], nextPhi, c, b, d);
        JoinedThere(f, phis[c], entry[c], ends, c, d, u);
      }
      SubstBlockTracks(f, multi, info, phis[c], phis'[c], f.blocks[c], code[c], nextPhi, entry[c], ends, c, d, u);
      SitesRenamed(multi, info, f.blocks[c], code[c], phis[c], phis'[c], nextPhi, c, g);
    }
  }

  lemma PhiVersion(orig: map<Ssa, Ssa>, phis: seq<Phi>, entry: map<Ssa, Ssa>, i: nat)
    requires PhisOk(phis, entry) && AreVersions(orig, entry) && i < |phis|
    ensures phis[i].orig in entry && entry[phis[i].orig] == phis[i].dst && phis[i].dst in orig && orig[phis[i].dst] == phis[i].orig
  {
  }

  lemma JoinedHere(f: Func, orig: map<Ssa, Ssa>, phis: seq<Phi>, i: nat, entry: map<Ssa, Ssa>, ends: seq<map<Ssa, Ssa>>, b: nat, u: Ssa)
    requires b < |f.pred| && PhisOk(phis, entry) && AreVersions(orig, entry) && i < |phis| && OnlySource(f, phis[i], b, u)
    requires forall s :: s in entry ==> Joined(f, phis, entry, ends, b, s)
    ensures var g := Subst(phis[i].dst, u);
            forall s :: s in entry ==> Joined(f, RenamePhis(Without(phis, i), g), RenameMap(entry, g), RenameMaps(ends, g), b, s)
  {
    hide Joined, OnlySource, RenamePhis, RenameMaps, HasPhi;
    var g := Subst(phis[i].dst, u);
    var phis' := Without(phis, i);
    WithoutOk(phis, entry, orig, i);
    forall s | s in entry
      ensures Joined(f, RenamePhis(phis', g), RenameMap(entry, g), RenameMaps(ends, g), b, s)
    {
      if s == phis[i].orig {
        RemovedJoined(f, phis, i, phis', entry, ends, b, u);
      } else {
        StillHasPhi(phis, i, s);
        SubstJoined(f, phis, phis', entry, ends, b, s, phis[i].dst, u);
      }
    }
  }

  lemma StillHasPhi(phis: seq<Phi>, i: nat, s: Ssa)
    requires i < |phis| && s != phis[i].orig
    ensures HasPhi(phis, s) ==> HasPhi(Without(phis, i), s)
    ensures forall j :: 0 <= j < |Without(phis, i)| ==> Without(phis, i)[j] in phis
  {
    if HasPhi(phis, s) {
      var j :| 0 <= j < |phis| && phis[j].orig == s;
      assert Without(phis, i)[if j < i then j else j - 1] == phis[j];
    }
  }

  lemma JoinedThere(f: Func, phis: seq<Phi>, entry: map<Ssa, Ssa>, ends: seq<map<Ssa, Ssa>>, b: nat, d: Ssa, u: Ssa)
    requires b < |f.pred| && forall s :: s in entry ==> Joined(f, phis, entry, ends, b, s)
    ensures var g := Subst(d, u); forall s :: s in entry ==> Joined(f, RenamePhis(phis, g), RenameMap(entry, g), RenameMaps(ends, g), b, s)
  {
    hide Joined, RenamePhis, RenameMaps, HasPhi;
    forall s | s in entry
      ensures Joined(f, RenamePhis(phis, Subst(d, u)), RenameMap(entry, Subst(d, u)), RenameMaps(ends, Subst(d, u)), b, s)
    {
      SubstJoined(f, phis, phis, entry, ends, b, s, d, u);
    }
  }

  lemma SitesRenamed(multi: set<Ssa>, info: map<Ssa, Info>, was: Block, now: Block, phis: seq<Phi>, phis': seq<Phi>, nextPhi: nat, b: nat, g: Ssa -> Ssa)
    requires SitesOk(multi, info, was, now, phis, nextPhi, b) && forall i :: 0 <= i < |phis'| ==> phis'[i] in phis
    ensures SitesOk(multi, info, was, RenameBlock(now, g), RenamePhis(phis', g), nextPhi, b)
  {
    forall k | 0 <= k < |now| && k < |was|
      ensures InstrSites(multi, info, was[k], RenameBlock(now, g)[k], b, k)
    {
      assert InstrSites(multi, info, was[k], now[k], b, k);
    }
  }

  // ----- No phi takes only itself -----

  lemma {:induction false} DefVersionSite(multi: set<Ssa>, info: map<Ssa, Info>, v: map<Ssa, Ssa>, was: Instr, now: Instr, n: nat, b: nat, k: nat, s: Ssa)
    requires n <= |was.defs| == |now.defs| && InstrSites(multi, info, was, now, b, k) && s in DefVersions(multi, v, was.defs, now.defs, n)
    ensures var x := DefVersions(multi, v, was.defs, now.defs, n)[s]; (s in v && x == v[s]) || (x in info && info[x].site.b == b)
  {
    if n > 0 && !(was.defs[n - 1] in multi && was.defs[n - 1] == s) {
      DefVersionSite(multi, info, v, was, now, n - 1, b, k, s);
    }
  }

  /** A version at the end of a block comes from the start of the block or is defined in it. */
  lemma {:induction false} VersionSite(multi: set<Ssa>, info: map<Ssa, Info>, entry: map<Ssa, Ssa>, was: Block, now: Block, n: nat, b: nat, s: Ssa)
    requires n <= |was| && n <= |now| && forall k :: 0 <= k < n ==> |was[k].defs| == |now[k].defs|
    requires (forall k :: 0 <= k < n ==> InstrSites(multi, info, was[k], now[k], b, k)) && s in Versions(multi, entry, was, now, n)
    ensures var x := Versions(multi, entry, was, now, n)[s]; (s in entry && x == entry[s]) || (x in info && info[x].site.b == b)
  {
    if n > 0 {
      hide InstrSites, DefVersions;
      var v := Versions(multi, entry, was, now, n - 1);
      DefVersionSite(multi, info, v, was[n - 1], now[n - 1], |was[n - 1].defs|, b, n - 1, s);
      if s in v {
        VersionSite(multi, info, entry, was, now, n - 1, b, s);
      }
    }
  }

  /** The version at the end of a path is defined on the path. */
  lemma {:induction false} DefinedOnPath(f: Func, multi: set<Ssa>, info: map<Ssa, Info>, phis: seq<seq<Phi>>, code: seq<Block>, nextPhi: nat,
                                         entry: seq<map<Ssa, Ssa>>, ends: seq<map<Ssa, Ssa>>, path: seq<nat>, s: Ssa)
    requires Tracks(f, multi, Origs(info), phis, code, entry, ends) && Sited(f, multi, info, phis, code, nextPhi) && f.IsPath(path)
    requires s in ends[path[|path| - 1]]
    ensures var x := ends[path[|path| - 1]][s]; x in info && info[x].site.b in path
    decreases |path|
  {
    hide PhisOk, Joined, AreVersions, Versions, InstrSites, Origs;
    var b := path[|path| - 1];
    assert BlockTracks(f, multi, Origs(info), phis[b], f.blocks[b], code[b], entry[b], ends, b);
    SameDefLengths(multi, Origs(info), entry[b], f.blocks[b], code[b]);
    VersionSite(multi, info, entry[b], f.blocks[b], code[b], |f.blocks[b]|, b, s);
    if s in entry[b] && ends[b][s] == entry[b][s] {
      if |path| == 1 {
        assert false;
      } else {
        PrefixIsPath(f, path);
        var p := path[|path| - 2];
        EntrySite(f, info, phis[b], entry[b], ends, b, s, p, multi, f.blocks[b], code[b], nextPhi);
        if ends[p][s] == entry[b][s] {
          DefinedOnPath(f, multi, info, phis, code, nextPhi, entry, ends, path[..|path| - 1], s);
        }
      }
    }
  }

  lemma EntrySite(f: Func, info: map<Ssa, Info>, phis: seq<Phi>, entry: map<Ssa, Ssa>, ends: seq<map<Ssa, Ssa>>, b: nat, s: Ssa, p: nat,
                  multi: set<Ssa>, was: Block, now: Block, nextPhi: nat)
    requires f.IsEdge(p, b) && s in entry && Joined(f, phis, entry, ends, b, s) && PhisOk(phis, entry) && SitesOk(multi, info, was, now, phis, nextPhi, b)
    ensures p < |ends| && s in ends[p] && (ends[p][s] == entry[s] || (entry[s] in info && info[entry[s]].site.b == b))
  {
  }

  /** There is a path to every block over smaller indices. */
  lemma {:induction false} LowPath(f: Func, b: nat) returns (path: seq<nat>)
    requires f.Valid() && b < |f.blocks|
    ensures f.IsPath(path) && path[|path| - 1] == b && forall i :: 0 <= i < |path| ==> path[i] <= b
  {
    if b == 0 {
      path := [0];
    } else {
      var p := f.pred[b][0];
      assert p in f.pred[b];
      var shorter := LowPath(f, p);
      assert f.IsEdge(p, b);
      LongerPath(f, shorter, b);
      path := shorter + [b];
    }
  }

  /** A phi has a source other than itself. */
  lemma NotCircular(f: Func, multi: set<Ssa>, info: map<Ssa, Info>, phis: seq<seq<Phi>>, code: seq<Block>, nextPhi: nat,
                    entry: seq<map<Ssa, Ssa>>, ends: seq<map<Ssa, Ssa>>, b: nat, i: nat)
    requires Tracks(f, multi, Origs(info), phis, code, entry, ends) && Sited(f, multi, info, phis, code, nextPhi) && f.Valid()
    requires b < |f.blocks| && i < |phis[b]|
    ensures b > 0 && var p := f.pred[b][0]; p in phis[b][i].srcs && phis[b][i].srcs[p] != phis[b][i].dst
  {
    hide BlockOk, Joined, AreVersions, Versions, InstrSites, Origs;
    var phi := phis[b][i];
    assert BlockTracks(f, multi, Origs(info), phis[b], f.blocks[b], code[b], entry[b], ends, b);
    assert phi.orig in entry[b];
    var p := f.pred[b][0];
    assert p in f.pred[b];
    SourceNamed(f, multi, Origs(info), phis, code, entry, ends, b, i, p);
    var path := LowPath(f, p);
    DefinedOnPath(f, multi, info, phis, code, nextPhi, entry, ends, path, phi.orig);
    PhiInfo(multi, info, f.blocks[b], code[b], phis[b], nextPhi, b, i);
  }

  // ----- The names that stand for removed phis -----

  /** The representative of a name: removed phis are mapped to what stands for them. */
  function Find(rep: map<Ssa, Ssa>, x: Ssa): Ssa {
    if x in rep then rep[x] else x
  }

  function Finder(rep: map<Ssa, Ssa>): Ssa -> Ssa {
    (x: Ssa) => Find(rep, x)
  }

  /** From now on `u` represents everything that `d` has represented. */
  function Union(rep: map<Ssa, Ssa>, u: Ssa, d: Ssa): map<Ssa, Ssa> {
    map x | x in rep.Keys + {d} :: if Find(rep, x) == d then u else Find(rep, x)
  }

  ghost predicate Resolved(rep: map<Ssa, Ssa>) {
    forall x :: x in rep ==> rep[x] !in rep
  }

  lemma UnionIsSubst(rep: map<Ssa, Ssa>, u: Ssa, d: Ssa)
    requires Resolved(rep) && d !in rep && u !in rep && u != d
    ensures Resolved(Union(rep, u, d)) && forall x :: Find(Union(rep, u, d), x) == Subst(d, u)(Find(rep, x))
  {
  }

  /** The program before pruning, and its names. */
  datatype Tracked = Tracked(f: Func, multi: set<Ssa>, info: map<Ssa, Info>, code: seq<Block>, entry: seq<map<Ssa, Ssa>>, ends: seq<map<Ssa, Ssa>>,
                             nextPhi: nat)

  /** With every name replaced by its representative all versions are tracked. */
  ghost predicate PruneInv(w: Tracked, phis: seq<seq<Phi>>, rep: map<Ssa, Ssa>) {
    var g := Finder(rep);
    && w.f.Valid() && NamesApart(w.f, Origs(w.info)) && Resolved(rep)
    && Tracks(w.f, w.multi, Origs(w.info), RenameAllPhis(phis, g), RenameBlocks(w.code, g), RenameMaps(w.entry, g), RenameMaps(w.ends, g))
    && Sited(w.f, w.multi, w.info, RenameAllPhis(phis, g), RenameBlocks(w.code, g), w.nextPhi)
    && forall b, i :: 0 <= b < |phis| && 0 <= i < |phis[b]| ==> phis[b][i].dst !in rep
  }

  /** Renaming twice is renaming once. */
  lemma RenameTwice(w: Tracked, phis: seq<seq<Phi>>, g: Ssa -> Ssa, g1: Ssa -> Ssa, g2: Ssa -> Ssa)
    requires forall x :: g(x) == g2(g1(x))
    ensures RenameAllPhis(phis, g) == RenameAllPhis(RenameAllPhis(phis, g1), g2)
    ensures RenameBlocks(w.code, g) == RenameBlocks(RenameBlocks(w.code, g1), g2)
    ensures RenameMaps(w.entry, g) == RenameMaps(RenameMaps(w.entry, g1), g2)
    ensures RenameMaps(w.ends, g) == RenameMaps(RenameMaps(w.ends, g1), g2)
  {
    hide RenamePhis, RenameBlock, RenameMap;
    forall i | 0 <= i < |phis|
      ensures RenamePhis(phis[i], g) == RenamePhis(RenamePhis(phis[i], g1), g2)
    {
      PhisTwice(phis[i], g, g1, g2);
    }
    forall i | 0 <= i < |w.code|
      ensures RenameBlock(w.code[i], g) == RenameBlock(RenameBlock(w.code[i], g1), g2)
    {
      BlockTwice(w.code[i], g, g1, g2);
    }
    forall m: map<Ssa, Ssa>
      ensures RenameMap(m, g) == RenameMap(RenameMap(m, g1), g2)
    {
      MapTwice(m, g, g1, g2);
    }
  }

  lemma MapTwice(m: map<Ssa, Ssa>, g: Ssa -> Ssa, g1: Ssa -> Ssa, g2: Ssa -> Ssa)
    requires forall x :: g(x) == g2(g1(x))
    ensures RenameMap(m, g) == RenameMap(RenameMap(m, g1), g2)
  {
  }

  lemma PhisTwice(phis: seq<Phi>, g: Ssa -> Ssa, g1: Ssa -> Ssa, g2: Ssa -> Ssa)
    requires forall x :: g(x) == g2(g1(x))
    ensures RenamePhis(phis, g) == RenamePhis(RenamePhis(phis, g1), g2)
  {
    hide RenameMap;
    forall i | 0 <= i < |phis|
      ensures RenamePhi(phis[i], g) == RenamePhi(RenamePhi(phis[i], g1), g2)
    {
      MapTwice(phis[i].srcs, g, g1, g2);
    }
  }

  lemma BlockTwice(block: Block, g: Ssa -> Ssa, g1: Ssa -> Ssa, g2: Ssa -> Ssa)
    requires forall x :: g(x) == g2(g1(x))
    ensures RenameBlock(block, g) == RenameBlock(RenameBlock(block, g1), g2)
  {
    hide RenameSeq;
    forall i | 0 <= i < |block|
      ensures RenameInstr(block[i], g) == RenameInstr(RenameInstr(block[i], g1), g2)
    {
      SeqTwice(block[i].uses, g, g1, g2);
    }
  }

  lemma SeqTwice(xs: seq<Ssa>, g: Ssa -> Ssa, g1: Ssa -> Ssa, g2: Ssa -> Ssa)
    requires forall x :: g(x) == g2(g1(x))
    ensures RenameSeq(xs, g) == RenameSeq(RenameSeq(xs, g1), g2)
  {
  }

  /** Removing a phi whose only source is `u`. */
  lemma RemovePhi(w: Tracked, phis: seq<seq<Phi>>, rep: map<Ssa, Ssa>, b: nat, i: nat, u: Ssa, p: nat)
    requires PruneInv(w, phis, rep) && b < |w.f.blocks| && b < |phis| && i < |phis[b]| && u !in rep
    requires OnlySource(w.f, RenamePhi(phis[b][i], Finder(rep)), b, u) && u != phis[b][i].dst
    requires p in w.f.pred[b] && p in phis[b][i].srcs && Find(rep, phis[b][i].srcs[p]) == u
    ensures PruneInv(w, phis[b := Without(phis[b], i)], Union(rep, u, phis[b][i].dst))
  {
    hide Tracks, Sited, Joined, OnlySource, NamesApart, RenameMap, RenameBlock, RenameBlocks, RenameMaps;
    var d, g := phis[b][i].dst, Finder(rep);
    var rep', phis' := Union(rep, u, d), phis[b := Without(phis[b], i)];
    var renamed := RenameAllPhis(phis, g);
    assert renamed[b][i] == RenamePhi(phis[b][i], g);
    UnionIsSubst(rep, u, d);
    SourceNamed(w.f, w.multi, Origs(w.info), renamed, RenameBlocks(w.code, g), RenameMaps(w.entry, g), RenameMaps(w.ends, g), b, i, p);
    RenamedSource(phis[b][i], g, p);
    PruneTracks(w.f, w.multi, w.info, renamed, RenameBlocks(w.code, g), w.nextPhi, RenameMaps(w.entry, g), RenameMaps(w.ends, g), b, i, u);
    RenameTwice(w, phis', Finder(rep'), g, Subst(d, u));
    WithoutRenamed(phis, b, i, g);
    forall c, j | 0 <= c < |phis| && 0 <= j < |phis[c]| && (c != b || j != i)
      ensures phis[c][j].dst != d
    {
      assert renamed[c][j] == RenamePhi(phis[c][j], g);
      PhiDstsDiffer(w.f, w.multi, w.info, renamed, RenameBlocks(w.code, g), w.nextPhi, RenameMaps(w.entry, g), RenameMaps(w.ends, g), b, i, c, j);
    }
    DstsUnmapped(phis, rep, b, i, u);
  }

  /** No two phis define the same name. */
  lemma PhiDstsDiffer(f: Func, multi: set<Ssa>, info: map<Ssa, Info>, phis: seq<seq<Phi>>, code: seq<Block>, nextPhi: nat,
                      entry: seq<map<Ssa, Ssa>>, ends: seq<map<Ssa, Ssa>>, b: nat, i: nat, c: nat, j: nat)
    requires Tracks(f, multi, Origs(info), phis, code, entry, ends) && Sited(f, multi, info, phis, code, nextPhi)
    requires b < |phis| && c < |phis| && i < |phis[b]| && j < |phis[c]| && (c != b || j != i)
    ensures phis[b][i].dst != phis[c][j].dst
  {
    hide Joined, Versions, BlockOk, InstrSites, Origs, AreVersions, PhisOk;
    PhiInfo(multi, info, f.blocks[b], code[b], phis[b], nextPhi, b, i);
    PhiInfo(multi, info, f.blocks[c], code[c], phis[c], nextPhi, c, j);
    if b == c {
      assert BlockTracks(f, multi, Origs(info), phis[b], f.blocks[b], code[b], entry[b], ends, b);
      PhiVersion(Origs(info), phis[b], entry[b], i);
      PhiVersion(Origs(info), phis[b], entry[b], j);
      DifferentOrigs(phis[b], entry[b], i, j);
    }
  }

  lemma DifferentOrigs(phis: seq<Phi>, entry: map<Ssa, Ssa>, i: nat, j: nat)
    requires PhisOk(phis, entry) && i < |phis| && j < |phis| && i != j
    ensures phis[i].orig != phis[j].orig
  {
  }

  lemma RenamedSource(phi: Phi, g: Ssa -> Ssa, p: nat)
    requires p in phi.srcs
    ensures p in RenamePhi(phi, g).srcs && RenamePhi(phi, g).srcs[p] == g(phi.srcs[p])
  {
  }

  lemma WithoutRenamed(phis: seq<seq<Phi>>, b: nat, i: nat, g: Ssa -> Ssa)
    requires b < |phis| && i < |phis[b]|
    ensures RenameAllPhis(phis, g)[b := Without(RenameAllPhis(phis, g)[b], i)] == RenameAllPhis(phis[b := Without(phis[b], i)], g)
  {
    hide RenamePhi;
    assert Without(RenamePhis(phis[b], g), i) == RenamePhis(Without(phis[b], i), g);
  }

  lemma DstsUnmapped(phis: seq<seq<Phi>>, rep: map<Ssa, Ssa>, b: nat, i: nat, u: Ssa)
    requires forall c, j :: 0 <= c < |phis| && 0 <= j < |phis[c]| ==> phis[c][j].dst !in rep
    requires b < |phis| && i < |phis[b]| && forall c, j :: 0 <= c < |phis| && 0 <= j < |phis[c]| && (c != b || j != i) ==> phis[c][j].dst != phis[b][i].dst
    ensures var phis' := phis[b := Without(phis[b], i)];
            forall c, j :: 0 <= c < |phis'| && 0 <= j < |phis'[c]| ==> phis'[c][j].dst !in Union(rep, u, phis[b][i].dst)
  {
  }

  // ----- Pruning -----

  /** The same phi, with some of its sources replaced by their representatives. */
  ghost predicate Refreshed(phi: Phi, phi': Phi, rep: map<Ssa, Ssa>) {
    && phi' == phi.(srcs := phi'.srcs) && phi'.srcs.Keys == phi.srcs.Keys
    && forall p :: p in phi.srcs ==> phi'.srcs[p] == phi.srcs[p] || phi'.srcs[p] == Find(rep, phi.srcs[p])
  }

  /** Two sources that differ from each other and from the phi. */
  ghost predicate Needed(phi: Phi, rep: map<Ssa, Ssa>) {
    exists p, q :: p in phi.srcs && q in phi.srcs && DifferentSources(phi, rep, p, q)
  }

  ghost predicate DifferentSources(phi: Phi, rep: map<Ssa, Ssa>, p: nat, q: nat)
    requires p in phi.srcs && q in phi.srcs
  {
    var x, y := Find(rep, phi.srcs[p]), Find(rep, phi.srcs[q]);
    x != phi.dst && y != phi.dst && x != y
  }

  /** Looks for two different sources; if there are none, the one source is returned. */
  method ReducePhi(phi: Phi, rep: map<Ssa, Ssa>) returns (phi': Phi, needed: bool, ssa: Option<Ssa>, ghost from: nat)
    requires Resolved(rep)
    ensures Refreshed(phi, phi', rep) && (needed ==> Needed(phi', rep))
    ensures !needed ==> forall p :: p in phi.srcs ==> Find(rep, phi.srcs[p]) == phi.dst || Some(Find(rep, phi.srcs[p])) == ssa
    ensures !needed && ssa.Some? ==> ssa.value != phi.dst && from in phi.srcs && Find(rep, phi.srcs[from]) == ssa.value
  {
    phi', needed, ssa, from := phi, false, None, 0;
    var rest := phi.srcs.Keys;
    while rest != {}
      invariant rest <= phi.srcs.Keys && Refreshed(phi, phi', rep)
      invariant forall p :: p in phi.srcs && p !in rest ==> Find(rep, phi.srcs[p]) == phi.dst || Some(Find(rep, phi.srcs[p])) == ssa
      invariant ssa.Some? ==> ssa.value != phi.dst && from in phi.srcs && from !in rest && Find(rep, phi.srcs[from]) == ssa.value
      decreases rest
    {
      var p :| p in rest;
      rest := rest - {p};
      var x := Find(rep, phi'.srcs[p]);
      phi' := phi'.(srcs := With(phi'.srcs, p, x));
      if x != phi.dst {
        if ssa.None? {
          ssa, from := Some(x), p;
        } else if ssa.value != x {
          assert DifferentSources(phi', rep, from, p);
          needed := true;
          return;
        }
      }
    }
  }

  lemma RefreshKeeps(w: Tracked, phis: seq<seq<Phi>>, rep: map<Ssa, Ssa>, b: nat, i: nat, phi': Phi)
    requires PruneInv(w, phis, rep) && b < |phis| && i < |phis[b]| && Refreshed(phis[b][i], phi', rep)
    ensures PruneInv(w, phis[b := phis[b][i := phi']], rep)
  {
    hide Tracks, Sited, NamesApart, RenameBlocks, RenameMaps;
    RefreshRenames(phis[b][i], phi', rep);
    assert RenamePhis(phis[b][i := phi'], Finder(rep)) == RenamePhis(phis[b], Finder(rep));
    assert RenameAllPhis(phis[b := phis[b][i := phi']], Finder(rep)) == RenameAllPhis(phis, Finder(rep));
  }

  lemma RefreshRenames(phi: Phi, phi': Phi, rep: map<Ssa, Ssa>)
    requires Refreshed(phi, phi', rep) && Resolved(rep)
    ensures RenamePhi(phi', Finder(rep)) == RenamePhi(phi, Finder(rep))
  {
    assert RenameMap(phi'.srcs, Finder(rep)) == RenameMap(phi.srcs, Finder(rep));
  }

  /** A phi that is not needed has exactly one source apart from itself. */
  lemma HasSource(w: Tracked, phis: seq<seq<Phi>>, rep: map<Ssa, Ssa>, b: nat, i: nat, ssa: Option<Ssa>)
    requires PruneInv(w, phis, rep) && |phis| == |w.f.blocks| && b < |phis| && i < |phis[b]|
    requires forall p :: p in phis[b][i].srcs ==> Find(rep, phis[b][i].srcs[p]) == phis[b][i].dst || Some(Find(rep, phis[b][i].srcs[p])) == ssa
    ensures ssa.Some? && ssa.value !in rep && OnlyOrSelf(w.f, RenamePhi(phis[b][i], Finder(rep)), b, ssa.value)
    ensures forall p :: p in w.f.pred[b] ==> p in phis[b][i].srcs
  {
    hide Tracks, Sited, NamesApart, RenameBlocks, RenameMaps;
    var g := Finder(rep);
    var renamed := RenameAllPhis(phis, g);
    assert renamed[b][i] == RenamePhi(phis[b][i], g);
    NotCircular(w.f, w.multi, w.info, renamed, RenameBlocks(w.code, g), w.nextPhi, RenameMaps(w.entry, g), RenameMaps(w.ends, g), b, i);
    var p0 := w.f.pred[b][0];
    RenamedSource(phis[b][i], g, p0);
    forall p | p in w.f.pred[b]
      ensures p in phis[b][i].srcs
    {
      SourceNamed(w.f, w.multi, Origs(w.info), renamed, RenameBlocks(w.code, g), RenameMaps(w.entry, g), RenameMaps(w.ends, g), b, i, p);
    }
  }

  ghost predicate OnlyOrSelf(f: Func, phi: Phi, b: nat, u: Ssa) {
    b < |f.pred| && forall p :: p in f.pred[b] && p in phi.srcs ==> phi.srcs[p] == phi.dst || phi.srcs[p] == u
  }

  ghost function Count(phis: seq<seq<Phi>>): nat {
    if phis == [] then 0 else Count(phis[..|phis| - 1]) + |phis[|phis| - 1]|
  }

  lemma {:induction false} CountLess(phis: seq<seq<Phi>>, b: nat, now: seq<Phi>)
    requires b < |phis|
    ensures Count(phis[b := now]) == Count(phis) - |phis[b]| + |now|
  {
    var phis' := phis[b := now];
    if b == |phis| - 1 {
      assert phis'[..|phis'| - 1] == phis[..|phis| - 1];
    } else {
      assert phis'[..|phis'| - 1] == phis[..|phis| - 1][b := now];
      CountLess(phis[..|phis| - 1], b, now);
    }
  }

  /** Only phis of blocks that have some are left. */
  ghost predicate FewerPhis(phis: seq<seq<Phi>>, phis': seq<seq<Phi>>) {
    |phis'| == |phis| && forall b :: 0 <= b < |phis| && phis[b] == [] ==> phis'[b] == []
  }

  /** Decides about phi `i` of block `b`. */
  method PrunePhi(phis0: seq<seq<Phi>>, rep0: map<Ssa, Ssa>, b: nat, i: nat, ghost w: Tracked)
    returns (phis: seq<seq<Phi>>, rep: map<Ssa, Ssa>, removed: bool)
    requires PruneInv(w, phis0, rep0) && |phis0| == |w.f.blocks| && b < |phis0| && i < |phis0[b]|
    ensures PruneInv(w, phis, rep) && FewerPhis(phis0, phis) && phis == phis0[b := phis[b]]
    ensures removed ==> |phis[b]| == |phis0[b]| - 1
    ensures !removed ==> rep == rep0 && |phis[b]| == |phis0[b]| && phis[b] == phis0[b][i := phis[b][i]] && Needed(phis[b][i], rep)
  {
    hide PruneInv, Needed;
    assert Resolved(rep0) by { IsResolved(w, phis0, rep0); }
    var phi, needed, ssa, from := ReducePhi(phis0[b][i], rep0);
    if needed {
      RefreshKeeps(w, phis0, rep0, b, i, phi);
      return phis0[b := phis0[b][i := phi]], rep0, false;
    }
    HasSource(w, phis0, rep0, b, i, ssa);
    IsOnlySource(w, phis0, rep0, b, i, ssa.value, from);
    phis, rep, removed := phis0[b := Without(phis0[b], i)], Union(rep0, ssa.value, phi.dst), true;
  }

  lemma IsResolved(w: Tracked, phis: seq<seq<Phi>>, rep: map<Ssa, Ssa>)
    requires PruneInv(w, phis, rep)
    ensures Resolved(rep)
  {
  }

  lemma IsOnlySource(w: Tracked, phis: seq<seq<Phi>>, rep: map<Ssa, Ssa>, b: nat, i: nat, u: Ssa, from: nat)
    requires PruneInv(w, phis, rep) && |phis| == |w.f.blocks| && b < |phis| && i < |phis[b]| && u !in rep && u != phis[b][i].dst
    requires OnlyOrSelf(w.f, RenamePhi(phis[b][i], Finder(rep)), b, u) && forall p :: p in w.f.pred[b] ==> p in phis[b][i].srcs
    ensures PruneInv(w, phis[b := Without(phis[b], i)], Union(rep, u, phis[b][i].dst))
  {
    hide Tracks, Sited, NamesApart, RenameBlocks, RenameMaps;
    var g := Finder(rep);
    var renamed := RenameAllPhis(phis, g);
    assert renamed[b][i] == RenamePhi(phis[b][i], g);
    NotCircular(w.f, w.multi, w.info, renamed, RenameBlocks(w.code, g), w.nextPhi, RenameMaps(w.entry, g), RenameMaps(w.ends, g), b, i);
    var p := w.f.pred[b][0];
    assert p in w.f.pred[b];
    RenamedSource(phis[b][i], g, p);
    RemovePhi(w, phis, rep, b, i, u, p);
  }

  /** Removes redundant phis until none is left. */
  method RemoveRedundantPhis(phis0: seq<seq<Phi>>, ghost w: Tracked) returns (phis: seq<seq<Phi>>, rep: map<Ssa, Ssa>)
    requires PruneInv(w, phis0, map[]) && |phis0| == |w.f.blocks|
    ensures PruneInv(w, phis, rep) && FewerPhis(phis0, phis)
    ensures forall b, i :: 0 <= b < |phis| && 0 <= i < |phis[b]| ==> Needed(phis[b][i], rep)
  {
    hide PruneInv, Needed, Count;
    phis, rep := phis0, map[];
    var toDo := true;
    while toDo
      invariant PruneInv(w, phis, rep) && FewerPhis(phis0, phis)
      invariant !toDo ==> forall b, i :: 0 <= b < |phis| && 0 <= i < |phis[b]| ==> Needed(phis[b][i], rep)
      decreases Count(phis), toDo
    {
      toDo := false;
      ghost var count := Count(phis);
      for b := 0 to |phis|
        invariant PruneInv(w, phis, rep) && FewerPhis(phis0, phis)
        invariant if toDo then Count(phis) < count else Count(phis) == count
        invariant !toDo ==> forall c, i :: 0 <= c < b && 0 <= i < |phis[c]| ==> Needed(phis[c][i], rep)
      {
        var i := 0;
        while i < |phis[b]|
          invariant |phis| == |phis0| && 0 <= i <= |phis[b]| && PruneInv(w, phis, rep) && FewerPhis(phis0, phis)
          invariant if toDo then Count(phis) < count else Count(phis) == count
          invariant !toDo ==> forall c, j :: 0 <= c < b && 0 <= j < |phis[c]| ==> Needed(phis[c][j], rep)
          invariant !toDo ==> forall j :: 0 <= j < i ==> Needed(phis[b][j], rep)
          decreases |phis[b]| - i
        {
          ghost var before := phis;
          var removed;
          phis, rep, removed := PrunePhi(phis, rep, b, i, w);
          CountLess(before, b, phis[b]);
          if removed {
            toDo := true;
          } else {
            i := i + 1;
          }
        }
      }
    }
  }
}
