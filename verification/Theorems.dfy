/** The compiler and the matcher together keep the meaning of a pattern. */
module Theorems {
  import opened Bytes
  import opened Code
  import opened Layout
  import opened Semantics
  import opened Machine
  import opened Shape
  import opened Simulation
  import opened Correctness
  import opened Pattern
  import opened Lowering
  import opened Preservation
  import opened Emptiness
  import opened Limits
  import opened Termination
  import opened Language
  import opened Leftover

  /** Ways of matching the pattern b | more from a starting result. */
  function Matches(c: Ctx, b: Branch, more: Branches, r: Res): (out: seq<Res>)
    requires r.pos <= |c.s|
    ensures Good(c, r.pos, out)
  {
    SBranch(c, b, 0, r) + SMore(c, more, Count(b), r)
  }

  /** A pattern that compiles within the size limits, to opcodes that match() has here,
      and keeps its meaning: {0} does not upset the possessive repeats. */
  predicate Compilable(b: Branch, more: Branches, nocase: bool) {
    ValidBranch(b, nocase) && ValidMore(more, nocase) && Safe(b) && SafeMore(more) && NoAtomic(b) && NoAtomicMore(more) &&
    Count(b) + CountMore(more) < 0x1_0000 && |EncProgram(Compile(b, more, nocase))| <= MAX_PATTERN_SIZE
  }

  /** A pattern on which match() ends: the scan for emptiness has missed no repeated
      bracket. */
  predicate Halting(b: Branch, more: Branches, nocase: bool) {
    Compilable(b, more, nocase) && GuardedGroup(Compile(b, more, nocase))
  }

  /** A pattern on which it finds the first way of matching: after an S bracket inside an S
      bracket a byte is consumed. */
  predicate Usable(b: Branch, more: Branches, nocase: bool) {
    Compilable(b, more, nocase) && TameGroup(Compile(b, more, nocase))
  }

  /** pcre_exec calls match() at the start of the code of a pattern. */
  ghost predicate Launched(md: Md, st: State, b: Branch, more: Branches) {
    Usable(b, more, md.c.nocase) && md.code == EncProgram(Compile(b, more, md.c.nocase)) &&
    md.offsetEnd % 3 == 0 && |st.vec| == md.offsetEnd && st.count <= md.limit && md.mstart <= |md.c.s|
  }

  function Begin(md: Md): Frame { Frame(md.mstart, 0, 2, [], 0) }

  /** The captures before the match: the first two thirds of the vector. */
  function Start(md: Md, st: State): Res
    requires md.offsetEnd == |st.vec|
  {
    Res(md.mstart, st.vec[..md.OffsetMax()], 2)
  }

  lemma ProgramAt(g: Group)
    requires |EncProgram(g)| <= MAX_PATTERN_SIZE
    ensures Has(EncProgram(g), 0, EncGroup(g)) && KAt(EncProgram(g), Span(g) + 3, Done)
  {
    hide EncGroup;
    assert EncProgram(g)[..|EncGroup(g)|] == EncGroup(g);
  }

  /** The invariant of the simulation holds where pcre_exec starts. */
  lemma StartReady(md: Md, st: State, b: Branch, more: Branches)
    requires Launched(md, st, b, more)
    ensures GroupReady(md, st, Begin(md), Compile(b, more, md.c.nocase), Done, Start(md, st))
    ensures AllGroup(md.c, Compile(b, more, md.c.nocase), Start(md, st)) == Matches(md.c, b, more, Start(md, st))
  {
    hide AllGroup, Matches, OkGroup, ValidGroup, EncGroup, EncProgram, Compile, Safe, SafeMore, TameGroup, CapsGroup, Has, KAt, OpenCaps, CalmGroup, Prog, Agree, KOk, Lo, ChainOk, HollowGroup;
    UsableOk(md.c, b, more, Start(md, st));
    ProgramAt(Compile(b, more, md.c.nocase));
    NothingOpen(md, st, Compile(b, more, md.c.nocase), Start(md, st), AllGroup(md.c, Compile(b, more, md.c.nocase), Start(md, st)));
  }

  /** Outside all brackets the invariant holds by itself. */
  lemma NothingOpen(md: Md, st: State, g: Group, r: Res, rs: seq<Res>)
    requires md.offsetEnd % 3 == 0 && |st.vec| == md.offsetEnd && r == Start(md, st) && Good(md.c, 0, rs)
    requires ValidGroup(g, md.c.nocase) && OkGroup(md.c, g) && CalmGroup(g, true)
    ensures GroupOk(md.c, g, Done) && KOk(md.c, Done) && Lo(Done) == 0 && Agree(md, Done, st.vec, r.vec) && ChainOk(Done, md.mstart, [], !HollowGroup(g)) && Prog(md.c, Done, rs)
  {
    hide ValidGroup, OkGroup, CapsGroup, CalmGroup;
  }

  lemma GoalAtEnd(md: Md, vec: seq<int>, o: Out, rs: seq<Res>)
    requires Good(md.c, 0, rs) && Goal(md, OpenCaps(Done), vec, o, Outs(md.c, md.mstart, Done, rs))
    ensures var outs := Filter(md.c, md.mstart, rs);
      || o.rc == MATCHLIMIT || o.rc == RECURSIONLIMIT
      || (outs == [] && o.rc == NOMATCH && o.st.vec == vec)
      || (outs != [] && o.rc == MATCH && Matched(md, o.st, outs[0]))
  {
  }

  /** match() on the compiled pattern, when it hits no limit, returns the first way
      of matching in the order of the pattern's choices, and leaves the vector as it
      was when there is none. */
  lemma MatchIsFirst(md: Md, st: State, b: Branch, more: Branches)
    requires Launched(md, st, b, more)
    ensures var o := Call(md, st, Begin(md), false);
      var outs := Filter(md.c, md.mstart, Matches(md.c, b, more, Start(md, st)));
      || o.rc == MATCHLIMIT || o.rc == RECURSIONLIMIT
      || (outs == [] && o.rc == NOMATCH && o.st.vec == st.vec)
      || (outs != [] && o.rc == MATCH && Matched(md, o.st, outs[0]))
  {
    StartReady(md, st, b, more);
    SimGroupCall(md, st, Begin(md), false, Compile(b, more, md.c.nocase), Done, Start(md, st));
    hide Call, AllGroup, Matches, OkGroup, ValidGroup, EncGroup, Usable, Filter, GroupReady;
    GoalAtEnd(md, st.vec, Call(md, st, Begin(md), false), Matches(md.c, b, more, Start(md, st)));
  }

  lemma CompilableOk(c: Ctx, b: Branch, more: Branches, r: Res)
    requires Compilable(b, more, c.nocase) && r.pos <= |c.s|
    ensures ValidGroup(Compile(b, more, c.nocase), c.nocase)
    ensures AllGroup(c, Compile(b, more, c.nocase), r) == Matches(c, b, more, r)
    ensures |EncProgram(Compile(b, more, c.nocase))| <= MAX_PATTERN_SIZE
  {
    hide AllGroup, ValidGroup, EncProgram;
    CompiledValid(b, more, c.nocase);
    CompilePreserves(c, b, more, r);
  }

  lemma UsableOk(c: Ctx, b: Branch, more: Branches, r: Res)
    requires Usable(b, more, c.nocase) && r.pos <= |c.s|
    ensures ValidGroup(Compile(b, more, c.nocase), c.nocase) && OkGroup(c, Compile(b, more, c.nocase)) && CalmGroup(Compile(b, more, c.nocase), true)
    ensures AllGroup(c, Compile(b, more, c.nocase), r) == Matches(c, b, more, r)
    ensures |EncProgram(Compile(b, more, c.nocase))| <= MAX_PATTERN_SIZE
  {
    hide AllGroup, OkGroup, ValidGroup, EncProgram, GuardedGroup, CalmGroup;
    CompileOk(c, b, more);
    CompilePreserves(c, b, more, r);
  }

  // ---------- termination ----------

  /** Calls that matching the pattern may need on a subject of length n from pos. */
  function CallBound(n: nat, g: Group, pos: nat): nat { 1 + Cost(Entry(n, g, pos, Done)) }

  /** match() on the compiled pattern terminates by itself, with match or no match:
      limits that allow CallBound calls are never hit, and no code is unknown. S brackets
      may be nested, as long as the scan that marks them is not misled (GuardedGroup). */
  lemma MatchTerminates(md: Md, st: State, b: Branch, more: Branches)
    requires ValidBranch(b, md.c.nocase) && ValidMore(more, md.c.nocase) && Count(b) + CountMore(more) < 0x1_0000
    requires NoAtomic(b) && NoAtomicMore(more) && GuardedGroup(Compile(b, more, md.c.nocase))
    requires md.code == EncProgram(Compile(b, more, md.c.nocase)) && |md.code| <= MAX_PATTERN_SIZE
    requires md.offsetEnd % 3 == 0 && |st.vec| == md.offsetEnd && md.mstart <= |md.c.s|
    requires st.count + CallBound(|md.c.s|, Compile(b, more, md.c.nocase), md.mstart) <= md.limit
    requires CallBound(|md.c.s|, Compile(b, more, md.c.nocase), md.mstart) <= md.rlimit
    ensures var o := Call(md, st, Begin(md), false);
      o.rc in {MATCH, NOMATCH} &&
      o.st.count <= st.count + CallBound(|md.c.s|, Compile(b, more, md.c.nocase), md.mstart)
  {
    hide Call, Compile, Entry, ValidGroup, GuardedGroup, EncProgram, EncGroup, SureGroup, Cost, Has, KAt;
    var g := Compile(b, more, md.c.nocase);
    CompiledValid(b, more, md.c.nocase);
    ProgramAt(g);
    assert LiveGroup(md, st, Begin(md), g, Done);
    TGroupCall(md, st, Begin(md), false, g, Done, Entry(|md.c.s|, g, md.mstart, Done));
  }

  lemma CompiledValid(b: Branch, more: Branches, nocase: bool)
    requires ValidBranch(b, nocase) && ValidMore(more, nocase) && Count(b) + CountMore(more) < 0x1_0000
    requires NoAtomic(b) && NoAtomicMore(more)
    ensures ValidGroup(Compile(b, more, nocase), nocase)
  {
    hide FormedGroup, ValidGroup, CodedGroup, Compile;
    CompiledFormed(b, more, nocase);
  }

  // ---------- some way of matching ----------

  /** pcre_exec calls match() on a pattern on which it ends. */
  ghost predicate Running(md: Md, st: State, b: Branch, more: Branches) {
    Halting(b, more, md.c.nocase) && md.code == EncProgram(Compile(b, more, md.c.nocase)) &&
    md.offsetEnd % 3 == 0 && |st.vec| == md.offsetEnd && st.count <= md.limit && md.mstart <= |md.c.s|
  }

  lemma CompilableFormed(b: Branch, more: Branches, nocase: bool)
    requires Compilable(b, more, nocase)
    ensures ValidBranch(b, nocase) && ValidMore(more, nocase) && ValidGroup(Compile(b, more, nocase), nocase)
    ensures FormedGroup(Compile(b, more, nocase), 0, Count(b) + CountMore(more)) && Count(b) + CountMore(more) < 0x1_0000
    ensures |EncProgram(Compile(b, more, nocase))| <= MAX_PATTERN_SIZE
  {
    hide ValidGroup, CodedGroup, EncProgram, Compile, FormedGroup;
    CompiledFormed(b, more, nocase);
  }

  lemma RunningReady(md: Md, st: State, b: Branch, more: Branches)
    requires Running(md, st, b, more)
    ensures PoisedGroup(md, Count(b) + CountMore(more), st, Begin(md), Compile(b, more, md.c.nocase), Done, Start(md, st))
    ensures AllGroup(md.c, Compile(b, more, md.c.nocase), Start(md, st)) == Matches(md.c, b, more, Start(md, st))
  {
    hide AllGroup, Matches, ValidGroup, EncGroup, EncProgram, Compile, Compilable, GuardedGroup, SureGroup, Has, KAt, FormedGroup, Count, CountMore;
    CompilableFormed(b, more, md.c.nocase);
    CompilableOk(md.c, b, more, Start(md, st));
    ProgramAt(Compile(b, more, md.c.nocase));
  }

  lemma {:induction false} FilterOf(c: Ctx, ms: nat, rs: seq<Res>)
    ensures forall x: Res :: x in Filter(c, ms, rs) <==> x in rs && !(c.notempty && x.pos == ms)
    decreases |rs|
  {
    if rs != [] { FilterOf(c, ms, rs[1..]); }
  }

  /** Where nothing is left behind the whole pattern, it has no way of matching. */
  lemma LostAtEnd(md: Md, g: Group, r: Res)
    requires r.pos <= |md.c.s| && LostGroup(md, g, Done, r.pos, [])
    ensures Filter(md.c, md.mstart, AllGroup(md.c, g, r)) == []
  {
    var rs := AllGroup(md.c, g, r);
    FilterOf(md.c, md.mstart, rs);
    BareGroup(md.c, g, r);
    hide AllGroup, Filter;
    if Filter(md.c, md.mstart, rs) != [] {
      var x := Filter(md.c, md.mstart, rs)[0];
      var i :| 0 <= i < |rs| && rs[i] == x;
      assert Bare(rs)[i] == At0(x.pos);
      EndEnters(md.c, g, r.pos, x.pos);
    }
  }

  lemma EndEnters(c: Ctx, g: Group, p: nat, e: nat)
    requires p <= |c.s| && EndsGroup(c, g, p, e)
    ensures Enter(c, g, Done, p, [], e)
  {
    GroupEndsUp(c, g, p, e);
    assert Left(c, Done, e, [], e);
  }

  /** match() on the compiled pattern, when it hits no limit, returns one of the ways of
      matching, and says that there is none exactly when there is none; it leaves the
      vector as it was then. It sets overflow only where the vector is too short for
      the groups of the pattern. */
  lemma MatchIsSome(md: Md, st: State, b: Branch, more: Branches)
    requires Running(md, st, b, more)
    ensures var o := Call(md, st, Begin(md), false);
      var outs := Filter(md.c, md.mstart, Matches(md.c, b, more, Start(md, st)));
      || o.rc == MATCHLIMIT || o.rc == RECURSIONLIMIT
      || ((if outs == [] then o.rc == NOMATCH && o.st.vec == st.vec else o.rc == MATCH && OneOf(md, o.st, outs)) &&
          (2 * (Count(b) + CountMore(more)) < md.OffsetMax() ==> o.st.overflow == st.overflow))
  {
    hide *;
    RunningReady(md, st, b, more);
    RunningFacts(md, st, b, more);
    var g, r, hi, f := Compile(b, more, md.c.nocase), Start(md, st), Count(b) + CountMore(more), Begin(md);
    WGroupCall(md, hi, st, f, false, g, Done, r);
    BeginChain(md);
    OutsDone(md, AllGroup(md.c, g, r));
    if LostGroup(md, g, Done, r.pos, []) { LostAtEnd(md, g, r); }
    FateAtEnd(md, hi, st, Call(md, st, f, false), Filter(md.c, md.mstart, AllGroup(md.c, g, r)), LostGroup(md, g, Done, r.pos, []));
  }

  lemma RunningFacts(md: Md, st: State, b: Branch, more: Branches)
    requires Running(md, st, b, more)
    ensures ValidBranch(b, md.c.nocase) && ValidMore(more, md.c.nocase) && Wf(md, st, Begin(md)) && md.offsetEnd == |st.vec|
    ensures Start(md, st).pos == md.mstart <= |md.c.s| && Lo(Done) == 0
    ensures Good(md.c, 0, AllGroup(md.c, Compile(b, more, md.c.nocase), Start(md, st)))
  {
    hide AllGroup, Compile, EncProgram, GuardedGroup;
  }

  lemma BeginChain(md: Md)
    ensures Pushed(Begin(md), false).chain == []
  {
  }

  lemma OutsDone(md: Md, rs: seq<Res>)
    requires Good(md.c, 0, rs)
    ensures Good(md.c, Lo(Done), rs) && Outs(md.c, md.mstart, Done, rs) == Filter(md.c, md.mstart, rs)
  {
  }

  lemma FateAtEnd(md: Md, hi: nat, st: State, o: Out, outs: seq<Res>, lost: bool)
    requires Fate(md, hi, OpenCaps(Done), st, o, outs, lost) && (lost ==> outs == [])
    ensures || o.rc == MATCHLIMIT || o.rc == RECURSIONLIMIT
            || ((if outs == [] then o.rc == NOMATCH && o.st.vec == st.vec else o.rc == MATCH && OneOf(md, o.st, outs)) &&
                (2 * hi < md.OffsetMax() ==> o.st.overflow == st.overflow))
  {
    hide Matched;
  }

  /** With limits that high, match() decides: no match exactly when there is no way
      of matching, and otherwise one of the ways; the first one, if the pattern
      is usable. */
  lemma MatchDecides(md: Md, st: State, b: Branch, more: Branches)
    requires Running(md, st, b, more)
    requires st.count + CallBound(|md.c.s|, Compile(b, more, md.c.nocase), md.mstart) <= md.limit
    requires CallBound(|md.c.s|, Compile(b, more, md.c.nocase), md.mstart) <= md.rlimit
    ensures var o := Call(md, st, Begin(md), false);
      var outs := Filter(md.c, md.mstart, Matches(md.c, b, more, Start(md, st)));
      if outs == [] then o.rc == NOMATCH && o.st.vec == st.vec
      else o.rc == MATCH && OneOf(md, o.st, outs) && (Usable(b, more, md.c.nocase) ==> Matched(md, o.st, outs[0]))
  {
    MatchIsSome(md, st, b, more);
    if Usable(b, more, md.c.nocase) { MatchIsFirst(md, st, b, more); }
    hide Call, Matches, Filter, GuardedGroup, CallBound, Compile, EncProgram, Matched, Safe, SafeMore, OneOf, TameGroup;
    MatchTerminates(md, st, b, more);
  }
}
