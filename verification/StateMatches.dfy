/** The state-set engine finds exactly the ends of the matches that match() could
    make from the same start. */
module StateMatches {
  import opened Bytes
  import opened Code
  import opened Layout
  import opened Semantics
  import opened Simulation
  import opened Pattern
  import opened Lowering
  import opened Language
  import opened StateSet
  import opened StateLanguage
  import opened StatePaths
  import opened StateRun
  import opened Leftmost
  import opened Emptiness
  import opened Preservation
  import Machine
  import Shape
  import Theorems

  lemma StartsReached(code: seq<Byte>, c: Ctx, g: Group, from: nat)
    requires Program(code, c, g)
    ensures MovesOf(code, c, Span(g), To(0), from) == Stay(BranchStarts(code, 0))
    ensures Reached(code, c, Span(g), Begin(from), BranchStarts(code, 0), from)
  {
    OpensAt(code, c, Span(g), 0, g, 0, from);
    hide Program, Leads, MovesOf, BranchStarts;
    LeadsHere(code, c, Span(g), Begin(from));
    MovesReached(code, c, Span(g), Begin(from), To(0), from);
  }

  lemma Wide(g: Group)
    ensures Span(g) > 0
  {
  }

  /** Every end that can be reached is found. */
  lemma LedIsFound(code: seq<Byte>, c: Ctx, g: Group, cap: nat, from: nat, e: nat)
    requires Program(code, c, g) && from <= |c.s| && Leads(code, c, Span(g), Begin(from), Finish(g, e)) && Counts(c, from, e)
    ensures var f := Run(code, c, Span(g), cap, from); f.Found? ==> e in f.ends
  {
    Wide(g);
    StartsReached(code, c, g, from);
    hide Program, Move, MovesOf, BranchStarts, EndsFrom, Span;
    var path :| |path| > 0 && IsPath(code, c, Span(g), path) && path[0] == Begin(from) && path[|path| - 1] == Finish(g, e);
    FirstMove(code, c, Span(g), from, path[0], path[1]);
    PathDrop(code, c, Span(g), path, 1);
    if |BranchStarts(code, 0)| <= cap {
      PathFound(code, c, Span(g), cap, from, from, BranchStarts(code, 0), path[1..]);
    }
  }

  lemma FirstMove(code: seq<Byte>, c: Ctx, ket: nat, from: nat, x: Conf, y: Conf)
    requires Move(code, c, ket, x, y) && x == Begin(from) && MovesOf(code, c, ket, To(0), from) == Stay(BranchStarts(code, 0))
    ensures y.pos == from && y.s in BranchStarts(code, 0)
  {
    hide MovesOf, BranchStarts;
  }

  /** Compiled code holds no item that the engine does not support. */
  lemma RunIsSupported(code: seq<Byte>, c: Ctx, g: Group, cap: nat, from: nat)
    requires Program(code, c, g) && from <= |c.s|
    ensures !Run(code, c, Span(g), cap, from).Unsupported?
  {
    StartsReached(code, c, g, from);
    hide Program, Leads, BranchStarts, EndsFrom, Span, Supported;
    forall y: Conf | Leads(code, c, Span(g), Begin(from), y) ensures Supported(At(code, y.s.offset)) {
      ReachedSupported(code, c, g, from, y);
    }
    if |BranchStarts(code, 0)| <= cap {
      EndsSupported(code, c, Span(g), cap, from, from, Begin(from), BranchStarts(code, 0));
    }
  }

  /** A run that has room finds the end of every match from its start, and nothing
      else, each once and the shorter matches first. */
  lemma RunIsExact(code: seq<Byte>, c: Ctx, g: Group, cap: nat, from: nat)
    requires Program(code, c, g) && from <= |c.s|
    ensures var f := Run(code, c, Span(g), cap, from);
      !f.Full? ==> f.Found? && Ascending(f.ends, from, |c.s|) && (forall e: nat :: e in f.ends <==> Counts(c, from, e) && EndsGroup(c, g, from, e))
  {
    hide Program, Leads, EndsGroup, BranchStarts, EndsFrom, Span;
    var f, first := Run(code, c, Span(g), cap, from), BranchStarts(code, 0);
    RunIsSupported(code, c, g, cap, from);
    if f.Found? {
      EndsAscend(code, c, Span(g), cap, from, from, first);
      StartsReached(code, c, g, from);
      forall e: nat ensures e in f.ends <==> Counts(c, from, e) && EndsGroup(c, g, from, e) {
        ReachedIff(code, c, g, from, e);
        if e in f.ends { EndsReached(code, c, Span(g), cap, from, from, Begin(from), first, e); }
        if Counts(c, from, e) && EndsGroup(c, g, from, e) { LedIsFound(code, c, g, cap, from, e); }
      }
    }
  }

  // ---------- PCRE_DOLLAR_ENDONLY ----------

  function Loose(c: Ctx): Ctx { c.(endonly := false) }

  lemma MovesLoose(code: seq<Byte>, c: Ctx, ket: nat, s: State, pos: nat)
    ensures MovesOf(code, Loose(c), ket, s, pos) == MovesOf(code, c, ket, s, pos)
  {
    hide SkipAlts, BranchStarts, Accepts, ZeroOk, FamilyOf, RepeatMoves, ClassMoves;
  }

  lemma {:induction false} SweepLoose(code: seq<Byte>, c: Ctx, ket: nat, cap: nat, pos: nat, a: seq<State>, i: nat, n: seq<State>)
    requires i <= |a| <= cap && |n| <= cap && (n != [] ==> pos < |c.s|)
    ensures Sweep(code, Loose(c), ket, cap, pos, a, i, n) == Sweep(code, c, ket, cap, pos, a, i, n)
    decreases cap - |a|, |a| - i
  {
    hide MovesOf, Asked, Supported;
    if i < |a| {
      if a[i] in a[..i] {
        SweepLoose(code, c, ket, cap, pos, a, i + 1, n);
      } else if Supported(At(code, a[i].offset)) {
        var m := MovesOf(code, c, ket, a[i], pos);
        MovesLoose(code, c, ket, a[i], pos);
        MovesFit(code, c, ket, a[i], pos);
        if |a| + Asked(code, a[i], m) <= cap && |n| + |m.next| <= cap {
          SweepLoose(code, c, ket, cap, pos, a + m.active, i + 1, n + m.next);
        }
      }
    }
  }

  lemma {:induction false} EndsLoose(code: seq<Byte>, c: Ctx, ket: nat, cap: nat, from: nat, pos: nat, list: seq<State>)
    requires pos <= |c.s| && |list| <= cap
    ensures EndsFrom(code, Loose(c), ket, cap, from, pos, list) == EndsFrom(code, c, ket, cap, from, pos, list)
    decreases |c.s| - pos
  {
    hide Sweep;
    SweepLoose(code, c, ket, cap, pos, list, 0, []);
    var l := Sweep(code, c, ket, cap, pos, list, 0, []);
    if l.Lists? && l.next != [] { EndsLoose(code, c, ket, cap, from, pos + 1, l.next); }
  }

  /** The engine does not look at the option at all. */
  lemma RunLoose(code: seq<Byte>, c: Ctx, ket: nat, cap: nat, from: nat)
    requires from <= |c.s|
    ensures Run(code, Loose(c), ket, cap, from) == Run(code, c, ket, cap, from)
  {
    hide EndsFrom, BranchStarts;
    if |BranchStarts(code, 0)| <= cap { EndsLoose(code, c, ket, cap, from, from, BranchStarts(code, 0)); }
  }

  lemma {:induction false} LooseFit(c: Ctx, ns: Nodes)
    requires DollarAgrees(c)
    ensures Fit(c, ns)
    decreases ns, 1
  {
    if ns.Cons? {
      if ns.n.Grp? { LooseFitGroup(c, ns.n.g); }
      if ns.n.Once? { LooseFit(c, ns.n.ns); }
      LooseFit(c, ns.rest);
    }
  }

  lemma {:induction false} LooseFitGroup(c: Ctx, g: Group)
    requires DollarAgrees(c)
    ensures FitGroup(c, g)
    decreases g, 0
  {
    LooseFit(c, g.b);
    LooseFitAlts(c, g.more);
  }

  lemma {:induction false} LooseFitAlts(c: Ctx, a: Alts)
    requires DollarAgrees(c)
    ensures FitAlts(c, a)
    decreases a, 0
  {
    if a.Alt? {
      LooseFit(c, a.b);
      LooseFitAlts(c, a.more);
    }
  }

  // ---------- compiled patterns ----------

  /** A pattern that the engine handles as match() does: no $, or one on which
      PCRE_DOLLAR_ENDONLY makes no difference. */
  predicate Agrees(c: Ctx, b: Branch, more: Branches)
    requires Theorems.Compilable(b, more, c.nocase)
  {
    FitGroup(c, Compile(b, more, c.nocase))
  }

  lemma CompiledProgram(c: Ctx, b: Branch, more: Branches)
    requires Theorems.Compilable(b, more, c.nocase) && Agrees(c, b, more)
    ensures Program(EncProgram(Compile(b, more, c.nocase)), c, Compile(b, more, c.nocase))
  {
    var g := Compile(b, more, c.nocase);
    Theorems.CompilableOk(c, b, more, At0(0));
    hide EncGroup, FitGroup, ValidGroup, Theorems.Compilable;
    Theorems.ProgramAt(g);
    ProgramLast(g);
  }

  lemma ProgramLast(g: Group)
    ensures At(EncProgram(g), Span(g) + 3) == OP_END
  {
    hide EncNodes, EncAlts;
  }

  /** On a compiled pattern: the ends found are those of the ways of matching. */
  lemma PatternIsExact(c: Ctx, b: Branch, more: Branches, vec: seq<int>, cap: nat, from: nat)
    requires Theorems.Compilable(b, more, c.nocase) && Agrees(c, b, more) && from <= |c.s|
    ensures var g := Compile(b, more, c.nocase);
      var f := Run(EncProgram(g), c, Span(g), cap, from);
      !f.Full? ==> f.Found? && Ascending(f.ends, from, |c.s|) && (forall e: nat :: e in f.ends <==> SomeEnd(WaysAt(c, b, more, vec, from), e))
  {
    var g := Compile(b, more, c.nocase);
    CompiledProgram(c, b, more);
    hide Program, Theorems.Compilable, Agrees, Run, EncProgram, Compile, Span, EndsGroup, WaysAt;
    RunIsExact(EncProgram(g), c, g, cap, from);
    var f := Run(EncProgram(g), c, Span(g), cap, from);
    if f.Found? {
      forall e: nat ensures e in f.ends <==> SomeEnd(WaysAt(c, b, more, vec, from), e) {
        MatchesEnd(c, b, more, vec, from, e);
        WaysEnd(c, b, more, vec, from, e);
      }
    }
  }

  predicate SomeEnd(rs: seq<Res>, e: nat) { exists i :: 0 <= i < |rs| && rs[i].pos == e }

  lemma WaysEnd(c: Ctx, b: Branch, more: Branches, vec: seq<int>, p: nat, e: nat)
    requires p <= |c.s|
    ensures var all := Theorems.Matches(c, b, more, Res(p, vec, 2));
      SomeEnd(WaysAt(c, b, more, vec, p), e) <==>
      Counts(c, p, e) && SomeEnd(all, e)
  {
    hide Theorems.Matches;
    FilterEnds(c, p, Theorems.Matches(c, b, more, Res(p, vec, 2)), e);
  }

  lemma {:induction false} FilterEnds(c: Ctx, p: nat, rs: seq<Res>, e: nat)
    requires Good(c, p, rs)
    ensures var out := Filter(c, p, rs);
      SomeEnd(out, e) <==> Counts(c, p, e) && SomeEnd(rs, e)
    decreases |rs|
  {
    if rs != [] {
      var out, rest := Filter(c, p, rs), Filter(c, p, rs[1..]);
      FilterEnds(c, p, rs[1..], e);
      assert out == if c.notempty && rs[0].pos == p then rest else [rs[0]] + rest;
      hide Filter;
      if i :| 0 <= i < |rest| && rest[i].pos == e { assert out[if out == rest then i else i + 1].pos == e; }
      if i :| 0 <= i < |out| && out[i].pos == e {
        if out != rest && i > 0 { assert rest[i - 1].pos == e; }
      }
      if i :| 0 <= i < |rs| && rs[i].pos == e {
        if i > 0 { assert rs[1..][i - 1].pos == e; } else if Counts(c, p, e) { assert out[0].pos == e; }
      }
      if i :| 0 <= i < |rs[1..]| && rs[1..][i].pos == e { assert rs[i + 1].pos == e; }
    }
  }

  /** For every pattern, the ends found are those of the ways of matching
      without PCRE_DOLLAR_ENDONLY. */
  lemma PatternIsLoose(c: Ctx, b: Branch, more: Branches, vec: seq<int>, cap: nat, from: nat)
    requires Theorems.Compilable(b, more, c.nocase) && from <= |c.s|
    ensures var g := Compile(b, more, c.nocase);
      var f := Run(EncProgram(g), c, Span(g), cap, from);
      !f.Full? ==> f.Found? && Ascending(f.ends, from, |c.s|) && (forall e: nat :: e in f.ends <==> SomeEnd(WaysAt(Loose(c), b, more, vec, from), e))
  {
    var g := Compile(b, more, c.nocase);
    LooseFitGroup(Loose(c), g);
    hide Theorems.Compilable, Run, EncProgram, Compile, Span, WaysAt, FitGroup;
    RunLoose(EncProgram(g), c, Span(g), cap, from);
    PatternIsExact(Loose(c), b, more, vec, cap, from);
  }

  /** The match that match() reports ends at one of the positions found. */
  lemma ExecEndIsFound(md: Machine.Md, st: Machine.State, b: Branch, more: Branches, cap: nat)
    requires Theorems.Running(md, st, b, more) && Agrees(md.c, b, more)
    ensures var o := Machine.Call(md, st, Theorems.Begin(md), false);
      var f := Run(md.code, md.c, Span(Compile(b, more, md.c.nocase)), cap, md.mstart);
      !f.Full? ==> f.Found? && (o.rc == Machine.MATCH ==> o.st.endPtr in f.ends) && (o.rc == Machine.NOMATCH ==> f.ends == [])
  {
    hide Machine.Call, Filter, Theorems.Compilable, Run, EncProgram, Compile, Span, Theorems.Matches, FitGroup, Shape.GuardedGroup, ValidBranch, ValidMore;
    var vec := Theorems.Start(md, st).vec;
    Theorems.RunningFacts(md, st, b, more);
    Theorems.MatchIsSome(md, st, b, more);
    PatternIsExact(md.c, b, more, vec, cap, md.mstart);
    assert WaysAt(md.c, b, more, vec, md.mstart) == Filter(md.c, md.mstart, Theorems.Matches(md.c, b, more, Theorems.Start(md, st)));
    hide WaysAt;
    var f := Run(md.code, md.c, Span(Compile(b, more, md.c.nocase)), cap, md.mstart);
    var outs := WaysAt(md.c, b, more, vec, md.mstart);
    var o := Machine.Call(md, st, Theorems.Begin(md), false);
    if f.Found? {
      if o.rc == Machine.MATCH {
        var x: Res :| x in outs && Matched(md, o.st, x);
        var i :| 0 <= i < |outs| && outs[i] == x;
        assert SomeEnd(outs, x.pos);
      }
      if f.ends != [] { assert SomeEnd(outs, f.ends[0]); }
    }
  }

  function Dollar(): Branch { Then(Assertion(OP_DOLL), Empty) }

  function DollarGroup(): Group { Group(0, false, Cons(Zero(OP_DOLL), Nil), NoAlt, Ket) }

  /** The pattern $ in front of a last newline, under PCRE_DOLLAR_ENDONLY: match() fails
      there and this engine succeeds. */
  lemma DollarDiffers(c: Ctx, cap: nat, vec: seq<int>)
    requires !DollarAgrees(c) && !c.notempty
    ensures Theorems.Compilable(Dollar(), NoMore, c.nocase)
    ensures var from: nat := |c.s| - 1;
      var f := Run(EncProgram(DollarGroup()), c, Span(DollarGroup()), cap, from);
      WaysAt(c, Dollar(), NoMore, vec, from) == [] && (!f.Full? ==> f.Found? && from in f.ends)
  {
    hide *;
    DollarUsable(c.nocase);
    DollarLast(c, vec);
    PatternIsLoose(c, Dollar(), NoMore, vec, cap, |c.s| - 1);
  }

  lemma DollarLast(c: Ctx, vec: seq<int>)
    requires !DollarAgrees(c) && !c.notempty
    ensures |c.s| > 0 && WaysAt(c, Dollar(), NoMore, vec, |c.s| - 1) == []
    ensures SomeEnd(WaysAt(Loose(c), Dollar(), NoMore, vec, |c.s| - 1), |c.s| - 1)
  {
    DollarWays(c, vec, |c.s| - 1);
    DollarWays(Loose(c), vec, |c.s| - 1);
    hide WaysAt;
    assert WaysAt(Loose(c), Dollar(), NoMore, vec, |c.s| - 1)[0].pos == |c.s| - 1;
  }

  lemma DollarUsable(nocase: bool)
    ensures ValidBranch(Dollar(), nocase) && Compile(Dollar(), NoMore, nocase) == DollarGroup()
    ensures Theorems.Compilable(Dollar(), NoMore, nocase)
  {
    DollarLowered(nocase);
    DollarBytes();
    hide EncGroup, EncProgram, LowerBranch;
    DollarSafe();
  }

  lemma DollarLowered(nocase: bool)
    ensures ValidBranch(Dollar(), nocase) && ValidMore(NoMore, nocase)
    ensures Compile(Dollar(), NoMore, nocase) == DollarGroup() && TameGroup(DollarGroup())
  {
    assert LowerBranch(Empty, 0, nocase) == Nil;
  }

  lemma DollarSafe()
    ensures Safe(Dollar()) && SafeMore(NoMore) && Count(Dollar()) + CountMore(NoMore) == 0
  {
  }

  lemma DollarBytes()
    ensures |EncProgram(DollarGroup())| == 8
  {
    assert EncNodes(Nil) == [] && EncAlts(NoAlt) == [];
    assert EncNodes(Cons(Zero(OP_DOLL), Nil)) == [OP_DOLL];
    hide EncNodes, EncAlts;
  }

  lemma DollarWays(c: Ctx, vec: seq<int>, p: nat)
    requires p <= |c.s| && !c.notempty
    ensures WaysAt(c, Dollar(), NoMore, vec, p) == if ZeroOk(c, OP_DOLL, p) then [Res(p, vec, 2)] else []
  {
    var r := Res(p, vec, 2);
    var rs := if ZeroOk(c, OP_DOLL, p) then [r] else [];
    assert SItem(c, Assertion(OP_DOLL), 0, r) == rs;
    assert SBranch(c, Dollar(), 0, r) == SEach(c, Empty, 0, p, rs);
    assert SEach(c, Empty, 0, p, rs) == rs by {
      assert SEach(c, Empty, 0, p, []) == [];
      if rs != [] { assert rs[1..] == []; }
    }
    assert Theorems.Matches(c, Dollar(), NoMore, r) == rs;
    hide Theorems.Matches, ZeroOk, SEach;
    assert Filter(c, p, []) == [];
    if rs != [] { assert rs[1..] == []; }
  }
}
