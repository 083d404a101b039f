/** Register pressure counted directly, and incrementally against the flow of control
    (crates/deko-nak/src/liveness.rs, crates/deko-nak/src/opt_instr_sched_prepass.rs). */
module Pressure {
  import opened Machine

  /** In SSA form values take the place of registers: a register file and a number. */
  type Ssa = Reg

  /** What an instruction reads, guard included, and what it defines: the parts of vectors, and values that
      are a destination by themselves. */
  datatype Instr = Instr(uses: seq<Ssa>, vectors: seq<Ssa>, scalars: seq<Ssa>)
  {
    function Uses(): set<Ssa> {
      set x | x in uses
    }

    function Vectors(): set<Ssa> {
      set x | x in vectors
    }

    function Scalars(): set<Ssa> {
      set x | x in scalars
    }

    function Defs(): set<Ssa> {
      Vectors() + Scalars()
    }

    /** The defined values are all different. */
    ghost predicate Valid() {
      && (forall i, j :: 0 <= i < j < |vectors| ==> vectors[i] != vectors[j])
      && (forall i, j :: 0 <= i < j < |scalars| ==> scalars[i] != scalars[j])
      && Vectors() !! Scalars()
    }
  }

  /** A number for each register file. */
  type PerFile = RegFile -> int

  function Add(p: PerFile, file: RegFile, d: int): PerFile {
    (f: RegFile) => if f == file then p(f) + d else p(f)
  }

  /** The values of a register file in a set. */
  function Of(s: set<Ssa>, f: RegFile): set<Ssa> {
    set x | x in s && x.file == f
  }

  function Count(s: set<Ssa>, f: RegFile): nat {
    |Of(s, f)|
  }

  lemma CountUnion(a: set<Ssa>, b: set<Ssa>, f: RegFile)
    requires a !! b
    ensures Count(a + b, f) == Count(a, f) + Count(b, f)
  {
    assert Of(a + b, f) == Of(a, f) + Of(b, f) && Of(a, f) !! Of(b, f);
  }

  lemma CountMinus(a: set<Ssa>, b: set<Ssa>, f: RegFile)
    requires b <= a
    ensures Count(a - b, f) == Count(a, f) - Count(b, f)
  {
    assert a == (a - b) + b;
    CountUnion(a - b, b, f);
  }

  lemma CountOne(x: Ssa, f: RegFile)
    ensures Count({x}, f) == if x.file == f then 1 else 0
  {
    assert Of({x}, f) == if x.file == f then {x} else {};
  }

  lemma CountInsert(s: set<Ssa>, x: Ssa, f: RegFile)
    requires x !in s
    ensures Count(s + {x}, f) == Count(s, f) + if x.file == f then 1 else 0
  {
    CountUnion(s, {x}, f);
    CountOne(x, f);
  }

  lemma CountRemove(s: set<Ssa>, x: Ssa, f: RegFile)
    requires x in s
    ensures Count(s - {x}, f) == Count(s, f) - if x.file == f then 1 else 0
  {
    CountMinus(s, {x}, f);
    CountOne(x, f);
  }

  lemma CountNone(f: RegFile)
    ensures Count({}, f) == 0
  {
    assert Of({}, f) == {};
  }

  // ----- The direct counts -----

  /** The values live before an instruction, given those live after it. */
  function Before(instr: Instr, after: set<Ssa>): set<Ssa> {
    (after - instr.Defs()) + instr.Uses()
  }

  /** What is live at the end of the instruction, where values that nobody needs are still there. */
  function Peak1(instr: Instr, after: set<Ssa>): set<Ssa> {
    after + instr.Defs()
  }

  /** What is live when vectors have been allocated and sources are still there. */
  function Peak2(instr: Instr, after: set<Ssa>): set<Ssa> {
    Before(instr, after) + instr.Vectors()
  }

  function MaxInt(a: int, b: int): int {
    if a < b then b else a
  }

  function Elements(xs: seq<Ssa>): set<Ssa> {
    set x | x in xs
  }

  method InsertAll(live0: set<Ssa>, xs: seq<Ssa>) returns (live: set<Ssa>)
    ensures live == live0 + Elements(xs)
  {
    live := live0;
    for i := 0 to |xs|
      invariant live == live0 + Elements(xs[..i])
    {
      assert xs[..i + 1] == xs[..i] + [xs[i]];
      live := live + {xs[i]};
    }
    assert xs[..|xs|] == xs;
  }

  /** Removes what is not live after the instruction. */
  method RemoveDead(live0: set<Ssa>, xs: seq<Ssa>, after: set<Ssa>) returns (live: set<Ssa>)
    ensures live == live0 - (Elements(xs) - after)
  {
    live := live0;
    for i := 0 to |xs|
      invariant live == live0 - (Elements(xs[..i]) - after)
    {
      assert xs[..i + 1] == xs[..i] + [xs[i]];
      if xs[i] !in after {
        live := live - {xs[i]};
      }
    }
    assert xs[..|xs|] == xs;
  }

  /** Walks down over an instruction: from the values live before it to those live after it, and the most
      that are live at a time. */
  method InsertInstrTopDown(instr: Instr, live0: set<Ssa>, after: set<Ssa>) returns (live: set<Ssa>, maxLive: PerFile)
    requires live0 == Before(instr, after) && instr.Uses() !! instr.Defs()
    ensures live == after && forall f :: maxLive(f) == MaxInt(Count(Peak1(instr, after), f), Count(Peak2(instr, after), f))
  {
    var afterDsts := InsertAll(live0, instr.vectors);
    assert afterDsts == Peak2(instr, after);
    live := RemoveDead(afterDsts, instr.uses, after);
    live := InsertAll(live, instr.scalars);
    assert live == Peak1(instr, after);
    var atEnd := live;
    maxLive := (f: RegFile) => MaxInt(Count(atEnd, f), Count(afterDsts, f));
    live := RemoveDead(live, instr.vectors + instr.scalars, after);
  }

  // ----- A block in some order -----

  /** The live values before the instructions `rev`, which are given from the last to the first. */
  function Walk(instrs: seq<Instr>, rev: seq<nat>, liveOut: set<Ssa>): set<Ssa>
    requires forall i :: 0 <= i < |rev| ==> rev[i] < |instrs|
  {
    if rev == [] then liveOut else Before(instrs[rev[|rev| - 1]], Walk(instrs, rev[..|rev| - 1], liveOut))
  }

  function AllUses(instrs: seq<Instr>, ids: set<nat>): set<Ssa> {
    set i, x | i in ids && i < |instrs| && x in instrs[i].Uses() :: x
  }

  function AllDefs(instrs: seq<Instr>, ids: set<nat>): set<Ssa> {
    set i, x | i in ids && i < |instrs| && x in instrs[i].Defs() :: x
  }

  /** A block in SSA form: a value has one definition, before all its uses. */
  ghost predicate BlockOk(instrs: seq<Instr>) {
    && (forall i :: 0 <= i < |instrs| ==> instrs[i].Valid())
    && (forall i, j, x {:trigger x in instrs[i].Defs(), x in instrs[j].Defs()} :: 0 <= i < |instrs| && 0 <= j < |instrs| && x in instrs[i].Defs() && x in instrs[j].Defs() ==> i == j)
    && (forall i, j, x {:trigger x in instrs[i].Uses(), x in instrs[j].Defs()} :: 0 <= i < |instrs| && 0 <= j < |instrs| && x in instrs[i].Uses() && x in instrs[j].Defs() ==> j < i)
  }

  /** The instructions in `done` include all that use what the others in it define. */
  ghost predicate UsersDone(instrs: seq<Instr>, done: set<nat>) {
    forall i, j, x {:trigger x in instrs[i].Uses(), x in instrs[j].Defs()} ::
      0 <= i < |instrs| && j in done && j < |instrs| && x in instrs[i].Uses() && x in instrs[j].Defs() ==> i in done
  }

  function Ids(rev: seq<nat>): set<nat> {
    set i | i in rev
  }

  /** Users come after what they use, also in the order `rev`, which runs backwards. */
  ghost predicate UsersFirst(instrs: seq<Instr>, rev: seq<nat>)
    requires forall i :: 0 <= i < |rev| ==> rev[i] < |instrs|
  {
    forall n: nat :: n <= |rev| ==> UsersDone(instrs, Ids(rev[..n]))
  }

  /** What is live before the instructions depends on which they are, not on their order. */
  lemma {:induction false} LiveBefore(instrs: seq<Instr>, rev: seq<nat>, liveOut: set<Ssa>)
    requires BlockOk(instrs) && (forall i :: 0 <= i < |rev| ==> rev[i] < |instrs|) && UsersFirst(instrs, rev)
    requires forall i, j :: 0 <= i < j < |rev| ==> rev[i] != rev[j]
    ensures Walk(instrs, rev, liveOut) == (liveOut + AllUses(instrs, Ids(rev))) - AllDefs(instrs, Ids(rev))
  {
    if rev != [] {
      var last, shorter := rev[|rev| - 1], rev[..|rev| - 1];
      ShorterUsersFirst(instrs, rev);
      LiveBefore(instrs, shorter, liveOut);
      assert rev == shorter + [last] && Ids(rev) == Ids(shorter) + {last};
      OneMoreInstr(instrs, Ids(shorter), last, liveOut);
    }
  }

  lemma ShorterUsersFirst(instrs: seq<Instr>, rev: seq<nat>)
    requires rev != [] && (forall i :: 0 <= i < |rev| ==> rev[i] < |instrs|) && UsersFirst(instrs, rev)
    ensures UsersFirst(instrs, rev[..|rev| - 1]) && UsersDone(instrs, Ids(rev[..|rev| - 1])) && UsersDone(instrs, Ids(rev))
  {
    hide UsersDone;
    assert rev[..|rev|] == rev;
    var shorter := rev[..|rev| - 1];
    forall n: nat | n <= |shorter|
      ensures UsersDone(instrs, Ids(shorter[..n]))
    {
      assert shorter[..n] == rev[..n];
    }
  }

  lemma OneMoreInstr(instrs: seq<Instr>, done: set<nat>, i: nat, liveOut: set<Ssa>)
    requires BlockOk(instrs) && i < |instrs| && i !in done && UsersDone(instrs, done) && UsersDone(instrs, done + {i})
    ensures Before(instrs[i], (liveOut + AllUses(instrs, done)) - AllDefs(instrs, done))
         == (liveOut + AllUses(instrs, done + {i})) - AllDefs(instrs, done + {i})
  {
    hide Instr.Uses, Instr.Defs;
    assert AllUses(instrs, done + {i}) == AllUses(instrs, done) + instrs[i].Uses();
    assert AllDefs(instrs, done + {i}) == AllDefs(instrs, done) + instrs[i].Defs();
    forall x | x in instrs[i].Uses()
      ensures x !in AllDefs(instrs, done + {i})
    {
      UseIsNotDefined(instrs, done, i, x);
    }
  }

  lemma UseIsNotDefined(instrs: seq<Instr>, done: set<nat>, i: nat, x: Ssa)
    requires BlockOk(instrs) && i < |instrs| && i !in done && UsersDone(instrs, done) && x in instrs[i].Uses()
    ensures x !in AllDefs(instrs, done + {i})
  {
    hide Instr.Uses, Instr.Defs;
    assert x !in instrs[i].Defs();
  }

  // ----- The incremental counts -----

  /** The change in live values from the end of an instruction: across it, and up to its two high points. */
  datatype InstrCount = InstrCount(net: PerFile, peak1: PerFile, peak2: PerFile)

  /** The values that some instruction uses or that are live at the end. */
  function Needed(instrs: seq<Instr>, liveOut: set<Ssa>): set<Ssa> {
    AllUses(instrs, AllIds(|instrs|)) + liveOut
  }

  function AllIds(n: nat): (ids: set<nat>)
    ensures forall i :: i in ids <==> 0 <= i < n
  {
    if n == 0 then {} else AllIds(n - 1) + {n - 1}
  }

  /** The values that become live when one of their uses is next. */
  function Pending(instrs: seq<Instr>, liveOut: set<Ssa>, done: set<nat>): set<Ssa> {
    AllUses(instrs, AllIds(|instrs|)) - liveOut - AllUses(instrs, done)
  }

  ghost predicate NetIs(c: InstrCount, instr: Instr, keys: set<Ssa>, needed: set<Ssa>) {
    forall f ::
      && c.net(f) == Count(instr.Uses() * keys, f) - Count(instr.Defs() * needed, f)
      && c.peak1(f) == Count(instr.Defs() - needed, f)
      && c.peak2(f) == Count(instr.Uses() * keys, f) + Count(instr.Defs() - needed, f) - Count(instr.Scalars(), f)
  }

  /** Who uses a value. */
  ghost predicate AreUsers(instrs: seq<Instr>, x: Ssa, users: seq<nat>) {
    && (forall i: nat :: i in users <==> i < |instrs| && x in instrs[i].Uses())
    && (forall i, j :: 0 <= i < j < |users| ==> users[i] != users[j])
  }

  ghost predicate NetOk(instrs: seq<Instr>, counts: seq<InstrCount>, users: map<Ssa, seq<nat>>, keys: set<Ssa>, needed: set<Ssa>) {
    && |counts| == |instrs| && users.Keys == keys
    && (forall x :: x in users ==> AreUsers(instrs, x, users[x]))
    && (forall i :: 0 <= i < |instrs| ==> NetIs(counts[i], instrs[i], keys, needed))
  }

  class NetLive {
    var counts: seq<InstrCount>
    var ssaToInstr: map<Ssa, seq<nat>>

    constructor (instrs: seq<Instr>, liveOut: set<Ssa>)
      requires BlockOk(instrs)
      ensures NetOk(instrs, counts, ssaToInstr, ssaToInstr.Keys, Needed(instrs, liveOut)) && ssaToInstr.Keys == Pending(instrs, liveOut, {})
    {
      counts, ssaToInstr := [], map[];
      new;
      hide NetIs, UsesCounted;
      for i := 0 to |instrs|
        invariant UsersUpTo(instrs, liveOut, ssaToInstr, i)
        invariant |counts| == i && forall j :: 0 <= j < i ==> UsesCounted(counts[j], instrs[j], liveOut)
      {
        var useSet;
        useSet, ssaToInstr := EnterUses(instrs, liveOut, ssaToInstr, i);
        var net := (f: RegFile) => Count(useSet, f);
        counts := counts + [InstrCount(net, (f: RegFile) => 0, net)];
        CountedUses(counts[i], instrs[i], liveOut, useSet);
      }
      ghost var keys := ssaToInstr.Keys;
      AllUsersFound(instrs, liveOut, ssaToInstr);
      for i := 0 to |instrs|
        invariant |counts| == |instrs| && ssaToInstr.Keys == keys
        invariant forall j :: 0 <= j < i ==> NetIs(counts[j], instrs[j], keys, Needed(instrs, liveOut))
        invariant forall j :: i <= j < |instrs| ==> UsesCounted(counts[j], instrs[j], liveOut)
        invariant forall x :: x in ssaToInstr ==> AreUsers(instrs, x, ssaToInstr[x])
      {
        var c := EnterDefs(instrs[i], counts[i], ssaToInstr.Keys + liveOut, liveOut);
        DefsCounted(instrs, liveOut, i, c, keys);
        counts := counts[i := c];
      }
    }

    /** `ssa` becomes live: whoever else uses it does not make it live any more. */
    method Remove(ssa: Ssa, ghost instrs: seq<Instr>, ghost needed: set<Ssa>) returns (removed: bool)
      requires NetOk(instrs, counts, ssaToInstr, ssaToInstr.Keys, needed)
      modifies this
      ensures removed == (ssa in old(ssaToInstr)) && ssaToInstr.Keys == old(ssaToInstr).Keys - {ssa}
      ensures NetOk(instrs, counts, ssaToInstr, ssaToInstr.Keys, needed)
    {
      hide NetIs, AreUsers;
      removed := ssa in ssaToInstr;
      if removed {
        var users := ssaToInstr[ssa];
        ghost var keys := ssaToInstr.Keys;
        UsersInRange(instrs, ssa, users);
        assert users[..0] == [];
        for k := 0 to |users|
          invariant |counts| == |instrs| && ssaToInstr == old(ssaToInstr)
          invariant forall i :: 0 <= i < |instrs| ==> NetIs(counts[i], instrs[i], if i in users[..k] then keys - {ssa} else keys, needed)
        {
          assert users[..k + 1] == users[..k] + [users[k]] && users[k] in users;
          var c := counts[users[k]];
          OneUser(instrs, ssa, users, k, c, keys, needed);
          counts := counts[users[k] := c.(net := Add(c.net, ssa.file, -1), peak2 := Add(c.peak2, ssa.file, -1))];
        }
        assert users[..|users|] == users;
        NotUsed(instrs, counts, ssa, users, keys, needed);
        ssaToInstr := ssaToInstr - {ssa};
      } else {
        assert ssaToInstr.Keys - {ssa} == ssaToInstr.Keys;
      }
    }
  }

  /** The users among the first `n` instructions. */
  ghost predicate UsersUpTo(instrs: seq<Instr>, liveOut: set<Ssa>, users: map<Ssa, seq<nat>>, n: nat) {
    && (forall x :: x in users <==> x !in liveOut && exists i :: 0 <= i < n && i < |instrs| && x in instrs[i].Uses())
    && (forall x :: x in users ==> UsersBefore(instrs, x, users[x], n))
  }

  ghost predicate UsersBefore(instrs: seq<Instr>, x: Ssa, users: seq<nat>, n: nat) {
    && (forall i: nat :: i in users <==> i < n && i < |instrs| && x in instrs[i].Uses())
    && (forall i, j :: 0 <= i < j < |users| ==> users[i] != users[j])
  }

  function Users(users: map<Ssa, seq<nat>>, x: Ssa): seq<nat> {
    if x in users then users[x] else []
  }

  /** Instruction `i` has been entered for the values in `entered`. */
  ghost predicate Entered(users0: map<Ssa, seq<nat>>, users: map<Ssa, seq<nat>>, entered: set<Ssa>, i: nat) {
    && users.Keys == users0.Keys + entered
    && forall x :: x in users ==> users[x] == if x in entered then Users(users0, x) + [i] else Users(users0, x)
  }

  lemma NothingEntered(users: map<Ssa, seq<nat>>, i: nat)
    ensures Entered(users, users, {}, i)
  {
  }

  lemma EnterUse(users0: map<Ssa, seq<nat>>, users: map<Ssa, seq<nat>>, entered: set<Ssa>, i: nat, x: Ssa)
    requires Entered(users0, users, entered, i) && x !in entered
    ensures Entered(users0, users[x := Users(users, x) + [i]], entered + {x}, i)
  {
  }

  /** Enters instruction `i` for each value that it uses. */
  method EnterUses(instrs: seq<Instr>, liveOut: set<Ssa>, users0: map<Ssa, seq<nat>>, i: nat) returns (useSet: set<Ssa>, users: map<Ssa, seq<nat>>)
    requires i < |instrs| && UsersUpTo(instrs, liveOut, users0, i)
    ensures useSet == instrs[i].Uses() - liveOut && UsersUpTo(instrs, liveOut, users, i + 1)
  {
    hide UsersUpTo, Entered;
    useSet, users := {}, users0;
    NothingEntered(users0, i);
    var uses := instrs[i].uses;
    for k := 0 to |uses|
      invariant useSet == Elements(uses[..k]) - liveOut && Entered(users0, users, useSet, i)
    {
      assert uses[..k + 1] == uses[..k] + [uses[k]];
      var ssa := uses[k];
      if ssa !in liveOut && ssa !in useSet {
        EnterUse(users0, users, useSet, i, ssa);
        useSet := useSet + {ssa};
        users := users[ssa := Users(users, ssa) + [i]];
      }
    }
    assert uses[..|uses|] == uses;
    assert useSet == instrs[i].Uses() - liveOut;
    UsersEntered(instrs, liveOut, users0, users, i, useSet);
  }

  lemma UsersEntered(instrs: seq<Instr>, liveOut: set<Ssa>, users0: map<Ssa, seq<nat>>, users: map<Ssa, seq<nat>>, i: nat, useSet: set<Ssa>)
    requires i < |instrs| && UsersUpTo(instrs, liveOut, users0, i) && useSet == instrs[i].Uses() - liveOut && Entered(users0, users, useSet, i)
    ensures UsersUpTo(instrs, liveOut, users, i + 1)
  {
    hide Instr.Uses, UsersBefore;
    forall x
      ensures x in users <==> x !in liveOut && exists j :: 0 <= j < i + 1 && j < |instrs| && x in instrs[j].Uses()
    {
      if x in users0 {
        var j :| 0 <= j < i && j < |instrs| && x in instrs[j].Uses();
      }
    }
    forall x | x in users
      ensures UsersBefore(instrs, x, users[x], i + 1)
    {
      UsersOf(instrs, liveOut, users0, i, x, x in useSet);
    }
  }

  lemma UsersOf(instrs: seq<Instr>, liveOut: set<Ssa>, users0: map<Ssa, seq<nat>>, i: nat, x: Ssa, here: bool)
    requires i < |instrs| && UsersUpTo(instrs, liveOut, users0, i) && x !in liveOut && (here <==> x in instrs[i].Uses())
    ensures UsersBefore(instrs, x, if here then Users(users0, x) + [i] else Users(users0, x), i + 1)
  {
    hide Instr.Uses;
    assert UsersBefore(instrs, x, Users(users0, x), i);
  }

  ghost predicate UsesCounted(c: InstrCount, instr: Instr, liveOut: set<Ssa>) {
    forall f :: c.net(f) == Count(instr.Uses() - liveOut, f) && c.peak1(f) == 0 && c.peak2(f) == c.net(f)
  }

  lemma CountedUses(c: InstrCount, instr: Instr, liveOut: set<Ssa>, useSet: set<Ssa>)
    requires useSet == instr.Uses() - liveOut && forall f :: c.net(f) == Count(useSet, f) && c.peak1(f) == 0 && c.peak2(f) == c.net(f)
    ensures UsesCounted(c, instr, liveOut)
  {
  }

  lemma AllUsersFound(instrs: seq<Instr>, liveOut: set<Ssa>, users: map<Ssa, seq<nat>>)
    requires UsersUpTo(instrs, liveOut, users, |instrs|)
    ensures users.Keys == Pending(instrs, liveOut, {}) && users.Keys + liveOut == Needed(instrs, liveOut)
    ensures forall x :: x in users ==> AreUsers(instrs, x, users[x])
  {
    hide Instr.Uses;
    forall x | x in users
      ensures AreUsers(instrs, x, users[x])
    {
      assert UsersBefore(instrs, x, users[x], |instrs|);
    }
    assert AllUses(instrs, {}) == {};
    forall x
      ensures x in users <==> x in AllUses(instrs, AllIds(|instrs|)) && x !in liveOut
    {
      if x in AllUses(instrs, AllIds(|instrs|)) && x !in liveOut {
        var i :| i in AllIds(|instrs|) && i < |instrs| && x in instrs[i].Uses();
      }
    }
  }

  /** Of some definitions those that are live and those that are dead have been counted. */
  ghost predicate SomeDefs(c0: InstrCount, c: InstrCount, defs: set<Ssa>, needed: set<Ssa>, scalars: set<Ssa>) {
    forall f ::
      && c.net(f) == c0.net(f) - Count(defs * needed, f) && c.peak1(f) == c0.peak1(f) + Count(defs - needed, f)
      && c.peak2(f) == c0.peak2(f) + Count(defs - needed, f) - Count(scalars, f)
  }

  function EnterDef(c: InstrCount, x: Ssa, needed: bool, vector: bool): InstrCount {
    var c1 := if needed then c.(net := Add(c.net, x.file, -1)) else c.(peak1 := Add(c.peak1, x.file, 1), peak2 := Add(c.peak2, x.file, 1));
    if vector then c1 else c1.(peak2 := Add(c1.peak2, x.file, -1))
  }

  lemma OneDef(c0: InstrCount, c: InstrCount, defs: set<Ssa>, needed: set<Ssa>, scalars: set<Ssa>, x: Ssa, vector: bool)
    requires SomeDefs(c0, c, defs, needed, scalars) && x !in defs && x !in scalars
    ensures SomeDefs(c0, EnterDef(c, x, x in needed, vector), defs + {x}, needed, if vector then scalars else scalars + {x})
  {
    hide Count;
    assert (defs + {x}) * needed == if x in needed then defs * needed + {x} else defs * needed;
    assert (defs + {x}) - needed == if x in needed then defs - needed else defs - needed + {x};
    forall f: RegFile
      ensures x in needed ==> Count(defs * needed + {x}, f) == Count(defs * needed, f) + if x.file == f then 1 else 0
      ensures x !in needed ==> Count(defs - needed + {x}, f) == Count(defs - needed, f) + if x.file == f then 1 else 0
      ensures Count(scalars + {x}, f) == Count(scalars, f) + if x.file == f then 1 else 0
    {
      CountInsert(defs * needed, x, f);
      CountInsert(defs - needed, x, f);
      CountInsert(scalars, x, f);
    }
  }

  method EnterDefs(instr: Instr, c0: InstrCount, needed: set<Ssa>, ghost liveOut: set<Ssa>) returns (c: InstrCount)
    requires instr.Valid()
    ensures SomeDefs(c0, c, instr.Defs(), needed, instr.Scalars())
  {
    hide SomeDefs, EnterDef;
    c := c0;
    NoDefs(c0, needed);
    for k := 0 to |instr.vectors|
      invariant SomeDefs(c0, c, Elements(instr.vectors[..k]), needed, {})
    {
      var x := instr.vectors[k];
      assert instr.vectors[..k + 1] == instr.vectors[..k] + [x];
      assert Elements(instr.vectors[..k + 1]) == Elements(instr.vectors[..k]) + {x};
      OneDef(c0, c, Elements(instr.vectors[..k]), needed, {}, x, true);
      c := EnterDef(c, x, x in needed, true);
    }
    assert instr.vectors[..|instr.vectors|] == instr.vectors;
    assert Elements(instr.vectors) == instr.Vectors();
    assert instr.Vectors() + Elements(instr.scalars[..0]) == instr.Vectors() && Elements(instr.scalars[..0]) == {};
    for k := 0 to |instr.scalars|
      invariant SomeDefs(c0, c, instr.Vectors() + Elements(instr.scalars[..k]), needed, Elements(instr.scalars[..k]))
    {
      var x := instr.scalars[k];
      assert instr.scalars[..k + 1] == instr.scalars[..k] + [x];
      assert Elements(instr.scalars[..k + 1]) == Elements(instr.scalars[..k]) + {x};
      assert instr.Vectors() + Elements(instr.scalars[..k + 1]) == instr.Vectors() + Elements(instr.scalars[..k]) + {x};
      assert x in instr.Scalars();
      OneDef(c0, c, instr.Vectors() + Elements(instr.scalars[..k]), needed, Elements(instr.scalars[..k]), x, false);
      c := EnterDef(c, x, x in needed, false);
    }
    assert instr.scalars[..|instr.scalars|] == instr.scalars;
    assert Elements(instr.scalars) == instr.Scalars();
  }

  lemma NoDefs(c: InstrCount, needed: set<Ssa>)
    ensures SomeDefs(c, c, Elements([]), needed, {})
  {
    assert Elements([]) == {} && {} * needed == {} && {} - needed == {};
    forall f: RegFile
      ensures Count({}, f) == 0
    {
      CountNone(f);
    }
  }

  lemma DefsCounted(instrs: seq<Instr>, liveOut: set<Ssa>, i: nat, c: InstrCount, keys: set<Ssa>)
    requires i < |instrs| && keys == Pending(instrs, liveOut, {})
    requires exists c0 :: UsesCounted(c0, instrs[i], liveOut) && SomeDefs(c0, c, instrs[i].Defs(), Needed(instrs, liveOut), instrs[i].Scalars())
    ensures NetIs(c, instrs[i], keys, Needed(instrs, liveOut))
  {
    hide Count;
    assert instrs[i].Uses() * keys == instrs[i].Uses() - liveOut by {
      assert AllUses(instrs, {}) == {};
      forall x | x in instrs[i].Uses()
        ensures x in AllUses(instrs, AllIds(|instrs|))
      {
      }
    }
  }

  lemma UsersInRange(instrs: seq<Instr>, x: Ssa, users: seq<nat>)
    requires AreUsers(instrs, x, users)
    ensures forall i :: i in users ==> i < |instrs|
  {
  }

  lemma OneUser(instrs: seq<Instr>, ssa: Ssa, users: seq<nat>, k: nat, c: InstrCount, keys: set<Ssa>, needed: set<Ssa>)
    requires AreUsers(instrs, ssa, users) && k < |users| && users[k] < |instrs| && ssa in keys
    requires NetIs(c, instrs[users[k]], if users[k] in users[..k] then keys - {ssa} else keys, needed)
    ensures NetIs(c.(net := Add(c.net, ssa.file, -1), peak2 := Add(c.peak2, ssa.file, -1)), instrs[users[k]], keys - {ssa}, needed)
  {
    var uses := instrs[users[k]].Uses();
    assert users[k] !in users[..k] && users[k] in users;
    assert uses * (keys - {ssa}) == uses * keys - {ssa} && ssa in uses * keys;
    forall f: RegFile
      ensures Count(uses * (keys - {ssa}), f) == Count(uses * keys, f) - if ssa.file == f then 1 else 0
    {
      CountRemove(uses * keys, ssa, f);
    }
  }

  lemma NotUsed(instrs: seq<Instr>, counts: seq<InstrCount>, ssa: Ssa, users: seq<nat>, keys: set<Ssa>, needed: set<Ssa>)
    requires AreUsers(instrs, ssa, users) && |counts| == |instrs|
    requires forall i :: 0 <= i < |instrs| ==> NetIs(counts[i], instrs[i], if i in users then keys - {ssa} else keys, needed)
    ensures forall i :: 0 <= i < |instrs| ==> NetIs(counts[i], instrs[i], keys - {ssa}, needed)
  {
    forall i | 0 <= i < |instrs|
      ensures NetIs(counts[i], instrs[i], keys - {ssa}, needed)
    {
      if i !in users {
        assert instrs[i].Uses() * (keys - {ssa}) == instrs[i].Uses() * keys;
      }
    }
  }

  // ----- Both agree -----

  /** The values that become live with an instruction, and those of its definitions that are live. */
  lemma WhatBecomesLive(instrs: seq<Instr>, liveOut: set<Ssa>, done: set<nat>, live: set<Ssa>, i: nat)
    requires BlockOk(instrs) && i < |instrs| && i !in done && done <= AllIds(|instrs|) && UsersDone(instrs, done) && UsersDone(instrs, done + {i})
    requires live == (liveOut + AllUses(instrs, done)) - AllDefs(instrs, done)
    ensures instrs[i].Uses() * Pending(instrs, liveOut, done) == instrs[i].Uses() - live
    ensures instrs[i].Defs() * Needed(instrs, liveOut) == instrs[i].Defs() * live && instrs[i].Uses() !! instrs[i].Defs()
    ensures instrs[i].Defs() - Needed(instrs, liveOut) == instrs[i].Defs() - live && instrs[i].Valid()
  {
    hide Instr.Uses, Instr.Defs;
    forall x | x in instrs[i].Uses()
      ensures x in Pending(instrs, liveOut, done) <==> x !in live
      ensures x !in instrs[i].Defs()
    {
      UseIsNotDefined(instrs, done, i, x);
      assert x in AllUses(instrs, AllIds(|instrs|));
    }
    forall x | x in instrs[i].Defs()
      ensures x in Needed(instrs, liveOut) <==> x in live
    {
      DefIsLive(instrs, liveOut, done, i, x);
    }
  }

  lemma DefIsLive(instrs: seq<Instr>, liveOut: set<Ssa>, done: set<nat>, i: nat, x: Ssa)
    requires BlockOk(instrs) && i < |instrs| && i !in done && done <= AllIds(|instrs|) && UsersDone(instrs, done + {i}) && x in instrs[i].Defs()
    ensures x in Needed(instrs, liveOut) <==> x in (liveOut + AllUses(instrs, done)) - AllDefs(instrs, done)
  {
    hide Instr.Uses, Instr.Defs;
    if x in AllUses(instrs, AllIds(|instrs|)) {
      var j :| j in AllIds(|instrs|) && j < |instrs| && x in instrs[j].Uses();
      assert i in done + {i} && j in done + {i};
      assert j != i;
    }
  }

  /** What the incremental counts predict is what the direct ones measure. */
  lemma NetIsExact(instrs: seq<Instr>, liveOut: set<Ssa>, done: set<nat>, live: set<Ssa>, i: nat, c: InstrCount, f: RegFile)
    requires BlockOk(instrs) && i < |instrs| && i !in done && done <= AllIds(|instrs|) && UsersDone(instrs, done) && UsersDone(instrs, done + {i})
    requires live == (liveOut + AllUses(instrs, done)) - AllDefs(instrs, done)
    requires NetIs(c, instrs[i], Pending(instrs, liveOut, done), Needed(instrs, liveOut))
    ensures Count(live, f) + c.net(f) == Count(Before(instrs[i], live), f)
    ensures Count(live, f) + c.peak1(f) == Count(Peak1(instrs[i], live), f)
    ensures Count(live, f) + c.peak2(f) == Count(Peak2(instrs[i], live), f)
  {
    hide Pending, Needed, Count, AllUses, AllDefs, BlockOk, UsersDone;
    WhatBecomesLive(instrs, liveOut, done, live, i);
    var instr := instrs[i];
    CountBefore(instr, live, f);
    CountPeaks(instr, live, f);
  }

  lemma CountBefore(instr: Instr, live: set<Ssa>, f: RegFile)
    requires instr.Uses() !! instr.Defs()
    ensures Count(Before(instr, live), f) == Count(live, f) - Count(instr.Defs() * live, f) + Count(instr.Uses() - live, f)
  {
    hide Count, Instr.Uses, Instr.Defs;
    var killed := live - instr.Defs() * live;
    assert Before(instr, live) == killed + (instr.Uses() - live);
    CountMinus(live, instr.Defs() * live, f);
    CountUnion(killed, instr.Uses() - live, f);
  }

  lemma CountPeaks(instr: Instr, live: set<Ssa>, f: RegFile)
    requires instr.Uses() !! instr.Defs() && instr.Valid()
    ensures Count(Peak1(instr, live), f) == Count(live, f) + Count(instr.Defs() - live, f)
    ensures Count(Peak2(instr, live), f) == Count(live, f) + Count(instr.Uses() - live, f) + Count(instr.Defs() - live, f) - Count(instr.Scalars(), f)
  {
    hide Count;
    assert Peak1(instr, live) == live + (instr.Defs() - live);
    CountUnion(live, instr.Defs() - live, f);
    VectorsAndScalars(instr);
    var noScalars := Peak1(instr, live) - instr.Scalars();
    CountMinus(Peak1(instr, live), instr.Scalars(), f);
    var fresh' := instr.Uses() - live;
    assert instr.Scalars() <= instr.Defs();
    assert Peak2(instr, live) == noScalars + fresh';
    CountUnion(noScalars, fresh', f);
  }

  lemma VectorsAndScalars(instr: Instr)
    ensures instr.Defs() == instr.Vectors() + instr.Scalars()
  {
  }
}
