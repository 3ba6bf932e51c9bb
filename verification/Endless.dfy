/** When match() ends by itself: patterns in which the scan for emptiness has missed a
    repeated bracket, and what it then takes for a run to go on for ever. */
module Endless {
  import opened Bytes
  import opened Code
  import opened Layout
  import opened Semantics
  import opened Shape
  import opened Machine
  import opened Repeats
  import opened Pattern
  import opened Lowering
  import opened Preservation
  import opened Simulation
  import opened Correctness
  import opened Emptiness
  import opened Limits
  import opened Termination
  import opened Theorems
  import opened Traps

  // ---------- ending by itself ----------

  /** pcre_exec calls match() for the first time. */
  ghost predicate Called(md: Md, st: State, b: Branch, more: Branches) {
    Compilable(b, more, md.c.nocase) && md.code == EncProgram(Compile(b, more, md.c.nocase)) &&
    md.offsetEnd % 3 == 0 && |st.vec| == md.offsetEnd && st.count == 0 && md.mstart <= |md.c.s|
  }

  function Limited(md: Md, n: nat): Md { md.(limit := n, rlimit := n) }

  /** There are limits that it does not hit, and then it hits no higher ones. */
  ghost predicate Stops(md: Md, st: State)
    requires md.offsetEnd % 3 == 0 && |st.vec| == md.offsetEnd && st.count == 0 && md.mstart <= |md.c.s|
  {
    exists n: nat :: Call(Limited(md, n), st, Begin(md), false).rc in {MATCH, NOMATCH}
  }

  /** On every subject, with or without PCRE_NOTEMPTY. */
  ghost predicate AlwaysStops(b: Branch, more: Branches, nocase: bool, notempty: bool) {
    forall md: Md, st: State :: Called(md, st, b, more) && md.c.nocase == nocase && md.c.notempty == notempty ==> Stops(md, st)
  }

  /** A trap that is reached on an empty subject, and no match to be had there. */
  predicate Fatal(g: Group, notempty: bool) { ExposedGroup(g) && (notempty || CatchesGroup(g)) }

  /** Then match() runs until a limit stops it, whatever the limits. */
  lemma Loops(md: Md, st: State, b: Branch, more: Branches)
    requires Called(md, st.(count := 0), b, more) && st.count <= md.limit && md.c.s == []
    requires Fatal(Compile(b, more, md.c.nocase), md.c.notempty) && FirmGroup(md.c, Compile(b, more, md.c.nocase))
    ensures HitLimit(Call(md, st, Begin(md), false))
  {
    hide *;
    Prepared(md, st, b, more);
    Caught(md, Compile(b, more, md.c.nocase));
    DGroupCall(md, st, Begin(md), false, Compile(b, more, md.c.nocase), Done);
  }

  lemma Prepared(md: Md, st: State, b: Branch, more: Branches)
    requires Called(md, st.(count := 0), b, more) && st.count <= md.limit && md.c.s == []
    requires FirmGroup(md.c, Compile(b, more, md.c.nocase))
    ensures ValidBranch(b, md.c.nocase) && ValidMore(more, md.c.nocase) && Wf(md, st, Begin(md))
    ensures StuckGroup(md, st, Begin(md), Compile(b, more, md.c.nocase), Done)
  {
    hide EncGroup, EncProgram, Compile, Compilable, FirmGroup, ValidGroup, Has, FormedGroup;
    CompilableFormed(b, more, md.c.nocase);
    ProgramAt(Compile(b, more, md.c.nocase));
  }

  lemma Caught(md: Md, g: Group)
    requires Fatal(g, md.c.notempty)
    ensures BarrenGroup(md.c, g, Done) && (forall o: Out :: Fails(o, DoomedGroup(g, Done)) ==> HitLimit(o))
  {
    hide ExposedGroup, CatchesGroup;
  }

  lemma {:induction false} ExposedOpen(ns: Nodes)
    requires Exposed(ns)
    ensures !Guarded(ns)
    decreases ns, 1
  {
    if ns.n.Grp? && ns.n.z != SkipZero && ExposedGroup(ns.n.g) { ExposedGroupOpen(ns.n.g); } else { ExposedOpen(ns.rest); }
  }

  lemma {:induction false} ExposedGroupOpen(g: Group)
    requires ExposedGroup(g)
    ensures !GuardedGroup(g)
    decreases g, 0
  {
    if !Trap(g) {
      if Exposed(g.b) { ExposedOpen(g.b); } else { ExposedAltsOpen(g.more); }
    }
  }

  lemma {:induction false} ExposedAltsOpen(a: Alts)
    requires ExposedAlts(a)
    ensures !GuardedAlts(a)
    decreases a, 1
  {
    if Exposed(a.b) { ExposedOpen(a.b); } else { ExposedAltsOpen(a.more); }
  }

  lemma GuardedStops(md: Md, st: State, b: Branch, more: Branches)
    requires Called(md, st, b, more) && GuardedGroup(Compile(b, more, md.c.nocase))
    ensures Stops(md, st)
  {
    hide Call, Compile, GuardedGroup, EncProgram, CallBound;
    var n := CallBound(|md.c.s|, Compile(b, more, md.c.nocase), md.mstart);
    MatchTerminates(Limited(md, n), st, b, more);
    assert Begin(Limited(md, n)) == Begin(md);
  }

  /** A pattern whose traps are fatal, or that has none: match() ends by itself on every
      subject exactly if it has none. */
  lemma StopsIff(b: Branch, more: Branches, nocase: bool, notempty: bool)
    requires Compilable(b, more, nocase)
    requires GuardedGroup(Compile(b, more, nocase)) || Fatal(Compile(b, more, nocase), notempty)
    ensures AlwaysStops(b, more, nocase, notempty) <==> GuardedGroup(Compile(b, more, nocase))
  {
    hide Call, Compile, GuardedGroup, EncProgram, Compilable, Stops, ExposedGroup, CatchesGroup, FirmGroup;
    CompilableFormed(b, more, nocase);
    var g := Compile(b, more, nocase);
    if GuardedGroup(g) {
      forall md: Md, st: State | Called(md, st, b, more) && md.c.nocase == nocase && md.c.notempty == notempty ensures Stops(md, st) {
        GuardedStops(md, st, b, more);
      }
    } else {
      var md := Md(EncProgram(g), Ctx([], nocase, false, false, false, false, notempty), 0, 0, 0, 0);
      var st := State(0, [], false, 0, 0);
      assert Called(md, st, b, more);
      assert !Stops(md, st) by { BlankLoops(md, st, b, more); }
    }
  }

  lemma BlankLoops(md: Md, st: State, b: Branch, more: Branches)
    requires Called(md, st, b, more) && Fatal(Compile(b, more, md.c.nocase), md.c.notempty)
    requires md.c.s == [] && !md.c.notbol && !md.c.noteol
    ensures !Stops(md, st)
  {
    hide Call, Compile, EncProgram, Compilable, ExposedGroup, CatchesGroup, FirmGroup;
    CompilableFormed(b, more, md.c.nocase);
    BlankFirmGroup(md.c, Compile(b, more, md.c.nocase));
    forall n: nat ensures HitLimit(Call(Limited(md, n), st, Begin(md), false)) {
      Loops(Limited(md, n), st, b, more);
      assert Begin(Limited(md, n)) == Begin(md);
    }
  }

  // ---------- one unlimited group ----------

  lemma {:induction false} CopiesTrap(n: nat, g: Group, tail: Nodes)
    ensures GuardedGroup(g) ==> (Guarded(Copies(n, g, tail)) <==> Guarded(tail))
    ensures HollowGroup(g) && Exposed(tail) ==> Exposed(Copies(n, g, tail))
    ensures Catches(tail) ==> Catches(Copies(n, g, tail))
    decreases n
  {
    hide GuardedGroup, HollowGroup, ExposedGroup, CatchesGroup;
    if n > 0 { CopiesTrap(n - 1, g, tail); }
  }

  /** A pattern that is one group under an unlimited repeat, with guarded contents. */
  predicate Repeated(i: Item, nocase: bool) {
    i.Paren? && i.q.Q? && i.q.max < 0 && i.q.mode != Possessive && ValidItem(i, nocase) && GuardedGroup(LowerGroup(i, 0, nocase)) &&
    Compilable(Then(i, Empty), NoMore, nocase)
  }

  /** match() ends by itself on every subject, if and only if the scan has seen all the ways
      in which the contents could match empty. */
  lemma OneGroupIff(i: Item, nocase: bool, notempty: bool)
    requires Repeated(i, nocase) && (i.q.mode == Greedy || notempty)
    ensures var g := LowerGroup(i, 0, nocase);
      AlwaysStops(Then(i, Empty), NoMore, nocase, notempty) <==> (HollowGroup(g) ==> GroupCouldBeEmpty(g))
    ensures AlwaysStops(Then(i, Empty), NoMore, nocase, notempty) <==> GuardedGroup(Compile(Then(i, Empty), NoMore, nocase))
  {
    hide AlwaysStops, Compilable, GuardedGroup, ValidBranch, ValidMore, ExposedGroup, CatchesGroup, LowerGroup, HollowGroup;
    var b := Then(i, Empty);
    CompilableFormed(b, NoMore, nocase);
    UnlimitedCode(i, nocase);
    UnlimitedTrap(LowerGroup(i, 0, nocase), i.q, nocase);
    OnlyBranch(Compile(b, NoMore, nocase));
    StopsIff(b, NoMore, nocase, notempty);
  }

  lemma UnlimitedCode(i: Item, nocase: bool)
    requires Repeated(i, nocase)
    ensures ValidBranch(Then(i, Empty), nocase) && ValidMore(NoMore, nocase)
    ensures Compile(Then(i, Empty), NoMore, nocase) == Group(0, false, CopyNodes(LowerGroup(i, 0, nocase), i.q, Nil), NoAlt, Ket)
  {
    hide LowerGroup, Compilable, GuardedGroup, CopyNodes;
    ThenValid(i, Empty, nocase);
    OrValid(Empty, NoMore, nocase);
    assert LowerBranch(Empty, 0 + CountItem(i), nocase) == Nil && LowerMore(NoMore, Count(Then(i, Empty)), nocase) == NoAlt;
  }

  lemma UnlimitedTrap(g: Group, q: Quant, nocase: bool)
    requires ValidQuant(q) && q.Q? && q.max < 0 && GuardedGroup(g)
    ensures var ns, trap := CopyNodes(g, q, Nil), HollowGroup(g) && !GroupCouldBeEmpty(g);
      (Guarded(ns) <==> !trap) && (trap ==> Exposed(ns)) && (trap && q.mode != Lazy ==> Catches(ns))
  {
    hide CouldBeEmpty, AltsCouldBeEmpty, Hollow, HollowAlts;
    var u := Unlimited(g, q.mode);
    assert HollowGroup(u) == HollowGroup(g) && Guarded(u.b) && GuardedAlts(u.more);
    var last := if q.min == 0 then Cons(Grp(ZeroPrefix(q.mode), u), Nil) else Cons(Grp(NoPrefix, u), Nil);
    assert GuardedGroup(u) <==> !(HollowGroup(g) && !GroupCouldBeEmpty(g));
    assert Guarded(Nil) && (Guarded(last) <==> GuardedGroup(u));
    assert Exposed(last) <== Trap(u);
    assert Catches(last) <== GreedyTrap(u);
    if q.min > 0 { CopiesTrap(q.min - 1, g, Cons(Grp(NoPrefix, u), Nil)); }
  }

  lemma OnlyBranch(g: Group)
    requires g.more == NoAlt && g.ket == Ket
    ensures (GuardedGroup(g) <==> Guarded(g.b)) && (ExposedGroup(g) <==> Exposed(g.b)) && (CatchesGroup(g) <==> Catches(g.b))
  {
    hide Guarded, Exposed, Catches, Hollow;
  }

  // ---------- such a pattern ----------

  /** (?:(?:a|)+)* is compiled with a plain outer bracket. */
  function Inner(): Item {
    Paren(false, Then(Atom(Lit(97, false), NoQ), Empty), Or(Empty, NoMore), Q(1, -1, Greedy))
  }

  function Outer(): Branch { Then(Paren(false, Then(Inner(), Empty), NoMore, Q(0, -1, Greedy)), Empty) }

  const CODE: seq<Byte> := [
    OP_BRA, 0, 21, OP_BRAZERO, OP_BRA, 0, 14, OP_SBRA, 0, 5, OP_CHAR, 97, OP_ALT, 0, 3,
    OP_KETRMAX, 0, 8, OP_KETRMAX, 0, 14, OP_KET, 0, 21, OP_END]

  function A(): Group { Group(0, false, Cons(One(Lit(97, false)), Nil), Alt(Nil, NoAlt), Ket) }

  function Body(): Nodes { Cons(Grp(NoPrefix, Unlimited(A(), Greedy)), Nil) }

  function Whole(): Nodes { Cons(Grp(BraZero, Group(0, false, Body(), NoAlt, KetRMax)), Nil) }

  lemma InnerLowered()
    ensures ValidItem(Inner(), false) && LowerBranch(Then(Inner(), Empty), 0, false) == Body()
  {
    assert LowerBranch(Empty, 0, false) == Nil && LowerMore(NoMore, 0, false) == NoAlt;
    assert LowerMore(Or(Empty, NoMore), 0, false) == Alt(Nil, NoAlt);
    assert LowerBranch(Inner().b, 0, false) == A().b;
    assert LowerGroup(Inner(), 0, false) == A();
    assert Copies(0, A(), Body()) == Body();
  }

  /** The scan of the outer group's body enters (?:a|)+ and sees only the a. */
  lemma OuterLowered()
    ensures ValidBranch(Outer(), false) && Compile(Outer(), NoMore, false) == Group(0, false, Whole(), NoAlt, Ket)
    ensures !GuardedGroup(Compile(Outer(), NoMore, false))
  {
    InnerLowered();
    var h := Group(0, false, Body(), NoAlt, Ket);
    hide LowerGroup;
    assert GroupCouldBeEmpty(A());
    assert !GroupCouldBeEmpty(h);
    assert LowerBranch(Empty, 0, false) == Nil && LowerMore(NoMore, 0, false) == NoAlt;
    assert LowerGroup(Outer().i, 0, false) == h by { OuterGroup(); }
    assert LowerBranch(Outer(), 0, false) == Whole();
  }

  lemma OuterGroup()
    ensures ValidBranch(Outer(), false) && LowerGroup(Outer().i, 0, false) == Group(0, false, Body(), NoAlt, Ket)
  {
    InnerLowered();
    hide Inner, Body, ValidBranch, ValidItem, ValidMore, LowerBranch;
    OrValid(Empty, NoMore, false);
    ThenValid(Inner(), Empty, false);
    ParenValid(Outer().i, false);
    ThenValid(Outer().i, Empty, false);
    assert LowerMore(NoMore, 0, false) == NoAlt;
    PlainParen(Outer().i);
  }

  lemma PlainParen(i: Item)
    requires ValidItem(i, false) && i.Paren? && !i.capturing && i.more == NoMore
    ensures ValidBranch(i.b, false) && LowerGroup(i, 0, false) == Group(0, false, LowerBranch(i.b, 0, false), NoAlt, Ket)
  {
    hide LowerBranch, ValidBranch;
    ParenValid(i, false);
  }

  lemma OuterCode()
    ensures EncProgram(Group(0, false, Whole(), NoAlt, Ket)) == CODE
  {
    hide EncGroup, EncNodes, Whole;
    WholeCode();
    PlainCode(Whole(), Ket);
  }

  lemma WholeCode()
    ensures EncNodes(Whole()) == CODE[3..21]
  {
    hide EncGroup, Unlimited, GroupCouldBeEmpty;
    InnerCode();
    var e := EncGroup(Unlimited(A(), Greedy));
    OneGroup(Unlimited(A(), Greedy));
    PlainCode(Body(), KetRMax);
    assert EncNodes(Whole()) == [OP_BRAZERO] + EncGroup(Group(0, false, Body(), NoAlt, KetRMax)) + EncNodes(Nil);
    Bytes18(e, EncNodes(Nil));
  }

  lemma OneGroup(g: Group)
    ensures EncNodes(Cons(Grp(NoPrefix, g), Nil)) == EncGroup(g)
  {
    hide EncGroup;
    assert EncNodes(Nil) == [];
    assert EncNode(Grp(NoPrefix, g)) == [] + EncGroup(g);
  }

  lemma Bytes18(e: seq<Byte>, end: seq<Byte>)
    requires e == [OP_SBRA, 0, 5, OP_CHAR, 97, OP_ALT, 0, 3, OP_KETRMAX, 0, 8] && end == []
    ensures [OP_BRAZERO] + ([OP_BRA, 0, 14] + e + [OP_KETRMAX, 0, 14]) + end == CODE[3..21]
  {
    var whole := [OP_BRAZERO] + ([OP_BRA, 0, 14] + e + [OP_KETRMAX, 0, 14]) + end;
    assert |whole| == 18 == |CODE[3..21]|;
    forall i | 0 <= i < 18 ensures whole[i] == CODE[3..21][i] {
      assert CODE[3..21][i] == CODE[3 + i];
    }
  }

  lemma InnerCode()
    ensures EncGroup(Unlimited(A(), Greedy)) == [OP_SBRA, 0, 5, OP_CHAR, 97, OP_ALT, 0, 3, OP_KETRMAX, 0, 8]
  {
    var g2 := Unlimited(A(), Greedy);
    assert GroupCouldBeEmpty(A());
    assert EncNodes(g2.b) == [OP_CHAR, 97] && EncAlts(g2.more) == [OP_ALT, 0, 3];
    assert EncHead(g2) == [OP_SBRA, 0, 5];
  }

  lemma PlainCode(b: Nodes, k: Ket)
    requires |EncNodes(b)| < 200
    ensures EncGroup(Group(0, false, b, NoAlt, k)) ==
      [OP_BRA, 0, 3 + |EncNodes(b)|] + EncNodes(b) + [KetOp(k), 0, 3 + |EncNodes(b)|]
  {
    var g := Group(0, false, b, NoAlt, k);
    hide EncNodes;
    assert EncAlts(NoAlt) == [];
    assert EncHead(g) == [OP_BRA, 0, 3 + |EncNodes(b)|];
    assert Link(Span(g)) == [0, 3 + |EncNodes(b)|];
    assert EncHead(g) + EncNodes(b) + [] == EncHead(g) + EncNodes(b);
  }

  lemma OuterOk()
    ensures Compilable(Outer(), NoMore, false)
  {
    OuterLowered();
    OuterCode();
    OuterPlain();
    hide Outer, Whole, EncGroup, ValidBranch, Compile;
    assert ValidMore(NoMore, false);
  }

  lemma OuterPlain()
    ensures Safe(Outer()) && SafeMore(NoMore) && NoAtomic(Outer()) && NoAtomicMore(NoMore) && Count(Outer()) == 0 == CountMore(NoMore)
  {
    var i := Inner();
    assert Safe(Empty) && NoAtomic(Empty) && Count(Empty) == 0 && SafeMore(NoMore) && NoAtomicMore(NoMore) && CountMore(NoMore) == 0;
    assert Safe(Then(i, Empty)) && NoAtomic(Then(i, Empty)) && Count(Then(i, Empty)) == 0;
    hide Inner;
    assert Safe(Outer()) && NoAtomic(Outer()) && Count(Outer()) == 0;
  }

  /** Its code, and that match() on an empty subject ends only at a limit. */
  lemma NeverEnds(md: Md, st: State)
    requires md.code == CODE && md.c.s == [] && !md.c.nocase && md.mstart == 0
    requires md.offsetEnd % 3 == 0 && |st.vec| == md.offsetEnd && st.count <= md.limit
    ensures Compilable(Outer(), NoMore, false) && EncProgram(Compile(Outer(), NoMore, false)) == CODE
    ensures !GuardedGroup(Compile(Outer(), NoMore, false))
    ensures HitLimit(Call(md, st, Begin(md), false))
  {
    hide EncProgram, Call, Compilable, Outer, GuardedGroup;
    OuterOk();
    OuterLowered();
    OuterCode();
    WholeFatal(md.c);
    Loops(md, st, Outer(), NoMore);
  }

  lemma WholeFatal(c: Ctx)
    ensures var g := Group(0, false, Whole(), NoAlt, Ket); ExposedGroup(g) && CatchesGroup(g) && FirmGroup(c, g)
  {
    var h := Group(0, false, Body(), NoAlt, KetRMax);
    assert HollowGroup(A()) && Hollow(Body()) && Firm(c, A().b) && FirmAlts(c, A().more) && Firm(c, Body());
    hide Body;
    assert GreedyTrap(h);
    assert Exposed(Whole()) && Catches(Whole()) && Firm(c, Whole());
  }

  // ---------- a trap that is never entered ----------

  /** (?:|x), where x is tried last, */
  function Fork(x: Nodes): Group { Group(0, false, Nil, Alt(x, NoAlt), Ket) }

  /** and a(?:|x). */
  function Early(x: Nodes): Group { Group(0, false, Cons(One(Lit(97, false)), Cons(Grp(NoPrefix, Fork(x)), Nil)), NoAlt, Ket) }

  /** a(?:|(?:(?:a|)+)*) */
  function Spare(): Branch {
    Then(Atom(Lit(97, false), NoQ), Then(Paren(false, Empty, Or(Outer(), NoMore), NoQ), Empty))
  }

  lemma SpareLowered()
    ensures ValidBranch(Spare(), false) && Compile(Spare(), NoMore, false) == Early(Whole())
    ensures Safe(Spare()) && NoAtomic(Spare()) && Count(Spare()) == 0
  {
    OuterLowered();
    OuterPlain();
    var i := Paren(false, Empty, Or(Outer(), NoMore), NoQ);
    assert LowerBranch(Outer(), 0, false) == Whole();
    hide Outer, Whole;
    OrValid(Outer(), NoMore, false);
    ParenValid(i, false);
    ThenValid(i, Empty, false);
    assert Count(Empty) == 0 && Safe(Empty) && NoAtomic(Empty) && SafeMore(Or(Outer(), NoMore)) && NoAtomicMore(Or(Outer(), NoMore));
    assert LowerBranch(Empty, 0, false) == Nil && LowerMore(NoMore, 0, false) == NoAlt;
    assert LowerMore(i.more, 0, false) == Alt(Whole(), NoAlt);
    assert LowerGroup(i, 0, false) == Fork(Whole());
    hide LowerGroup;
    assert Count(Then(i, Empty)) == 0 && Safe(Then(i, Empty)) && NoAtomic(Then(i, Empty));
    assert LowerBranch(Then(i, Empty), 0, false) == Cons(Grp(NoPrefix, Fork(Whole())), Nil);
    hide Fork;
    assert LowerBranch(Spare(), 0, false) == Early(Whole()).b;
  }

  /** The ket of a bracket that neither captures nor repeats. */
  lemma PlainKet(md: Md, st: State, f: Frame, k: Cont)
    requires MdOk(md) && Wf(md, st, f) && KAt(md.code, f.pc, k) && k.In? && k.ns.Nil?
    requires k.g.cap == 0 && !k.g.s && k.g.ket == Ket
    ensures exists pc: nat :: KAt(md.code, pc, k.k) && Run(md, st, f) == Run(md, st, f.(pc := pc))
  {
    hide Run, Call, Deeper, EncGroup, Has, Span;
    if f.pc != k.gpc + Span(k.g) { BranchEnd(md, st, f, k); }
    var f1 := f.(pc := k.gpc + Span(k.g));
    KetCode(md, f1, k);
    hide KAt;
    KetRuns(md, st, f1, k.g, k.gpc);
    assert f1.(chain := f1.chain, top := f1.top) == f1;
    CloseIs(md, st, f1, k, false);
    assert Run(md, st, f) == Run(md, st, f.(pc := f1.pc + 3));
  }

  /** A place where only kets are left, and a byte has been consumed. */
  lemma TwoKets(md: Md, st: State, f: Frame, k: Cont)
    requires MdOk(md) && Wf(md, st, f) && KAt(md.code, f.pc, k) && f.eptr > md.mstart
    requires k.In? && k.ns.Nil? && k.g.cap == 0 && !k.g.s && k.g.ket == Ket
    requires k.k.In? && k.k.ns.Nil? && k.k.g.cap == 0 && !k.k.g.s && k.k.g.ket == Ket && k.k.k.Done?
    ensures Run(md, st, f).rc == MATCH
  {
    hide Run, KAt, EncGroup;
    PlainKet(md, st, f, k);
    var pc: nat :| KAt(md.code, pc, k.k) && Run(md, st, f) == Run(md, st, f.(pc := pc));
    PlainKet(md, st, f.(pc := pc), k.k);
    var end: nat :| KAt(md.code, end, k.k.k) && Run(md, st, f.(pc := pc)) == Run(md, st, f.(pc := end));
    RunMatches(md, st, f.(pc := end));
  }

  lemma RunMatches(md: Md, st: State, f: Frame)
    requires Wf(md, st, f) && KAt(md.code, f.pc, Done) && f.eptr > md.mstart
    ensures Run(md, st, f).rc == MATCH
  {
    hide Call, Deeper, RunRepeat, RunBra, RunKet;
  }

  lemma CallRuns(md: Md, st: State, f: Frame)
    requires Wf(md, st, f) && st.count < md.limit && f.rdepth < md.rlimit
    ensures Call(md, st, f, false) == Run(md, st.(count := st.count + 1), f)
  {
    hide Run;
  }

  /** The first of several branches, or the only one. */
  lemma BranchTried(md: Md, st: State, f: Frame)
    requires Wf(md, st, f) && Get(md.code, f.pc + 1) > 0
    ensures var open := f.(pc := f.pc + OpenLen(At(md.code, f.pc)));
      if At(md.code, f.pc + Get(md.code, f.pc + 1)) == OP_ALT
      then Call(md, st, open.(rdepth := f.rdepth + 1), false).rc == MATCH ==>
             BraAlts(md, st, f, false) == Call(md, st, open.(rdepth := f.rdepth + 1), false)
      else BraAlts(md, st, f, false) == Call(md, st, open, false)
  {
    hide Run, Call, Get, At, OpenLen;
  }

  /** (?:|x) takes its first branch. */
  lemma ForkRuns(md: Md, st: State, f: Frame, x: Nodes, k2: Cont)
    requires MdOk(md) && Wf(md, st, f) && Has(md.code, f.pc, EncGroup(Fork(x))) && KAt(md.code, f.pc + Span(Fork(x)) + 3, k2)
    requires f.eptr > md.mstart && st.count < md.limit && f.rdepth + 1 < md.rlimit
    requires k2.In? && k2.ns.Nil? && k2.g.cap == 0 && !k2.g.s && k2.g.ket == Ket && k2.k.Done?
    ensures Run(md, st, f).rc == MATCH
  {
    hide Run, Call, CapAlts, KAt, EncGroup, Has, BranchAt, Get, OpenLen, At, Span, Restore, BraAlts;
    var g, open := Fork(x), f.(pc := f.pc + OpenLen(At(md.code, f.pc)));
    GroupCode(md, f.pc, g);
    RunIsBra(md, st, f, g);
    BranchCode(md, f.pc, g.b, g.more, g, f.pc, f.eptr, k2);
    NextCode(md, f.pc, g.b, g.more, g, f.pc);
    BranchTried(md, st, f);
    CallRuns(md, st, open.(rdepth := f.rdepth + 1));
    TwoKets(md, st.(count := st.count + 1), open.(rdepth := f.rdepth + 1), In(Nil, g, f.pc, f.eptr, k2));
  }

  /** One byte is taken, or there is no match. */
  lemma ByteTaken(md: Md, st: State, f: Frame, d: Repeat)
    requires Wf(md, st, f) && IsRepeatOp(At(md.code, f.pc)) && DecodeRepeat(md, f.pc) == d && d.min == d.max == 1
    ensures Run(md, st, f) == Out(NOMATCH, st) ||
            (f.eptr < |md.c.s| && Run(md, st, f) == Run(md, st, f.(eptr := f.eptr + 1, pc := d.next)))
  {
    hide Run, DecodeRepeat, RunRepeat, IsRepeatOp, At;
    RunIsRepeat(md, st, f, d);
    if MinOk(md.c, d.x, f.eptr, 1) { RunTaken(md, st, f, d, f.eptr + 1); } else { RepeatFails(md, st, f, d); }
  }

  lemma EarlyRuns(md: Md, st: State, f: Frame, x: Nodes, k: Cont)
    requires MdOk(md) && Wf(md, st, f) && KAt(md.code, f.pc, k) && f.eptr == md.mstart && !md.c.nocase
    requires k.In? && k.ns == Early(x).b && k.g == Early(x) && k.k.Done? && ValidNodes(k.ns, false)
    requires st.count < md.limit && f.rdepth + 1 < md.rlimit
    ensures Run(md, st, f).rc in {MATCH, NOMATCH}
  {
    hide Run, KAt, EncGroup, Has, DecodeRepeat, IsRepeatOp, Span, At, Fork;
    var a, k2 := Lit(97, false), k.(ns := k.ns.rest);
    KAtStep(md.code, f.pc, k);
    assert EncNode(k.ns.n) == EncOne(a) && |EncOne(a)| == 2;
    NextByte(md, f.pc + 2, k2);
    DecodeOne(md, f.pc, a);
    ByteTaken(md, st, f, Repeat(a, 1, 1, false, false, f.pc + 2));
    if Run(md, st, f) != Out(NOMATCH, st) {
      KAtStep(md.code, f.pc + 2, k2);
      assert EncNode(k2.ns.n) == EncGroup(Fork(x));
      ForkRuns(md, st, f.(eptr := f.eptr + 1, pc := f.pc + 2), x, k2.(ns := Nil));
    }
  }

  lemma LinkAhead(md: Md, g: Group)
    requires MdOk(md) && Has(md.code, 0, EncGroup(g))
    ensures Get(md.code, 1) > 0
  {
    hide EncNodes, EncAlts;
    GroupAt(md.code, 0, g);
  }

  lemma EarlyStops(md: Md, st: State, x: Nodes)
    requires md.code == EncProgram(Early(x)) && ValidGroup(Early(x), false) && !md.c.nocase && |md.code| <= MAX_PATTERN_SIZE
    requires md.offsetEnd % 3 == 0 && |st.vec| == md.offsetEnd && st.count == 0 && md.mstart <= |md.c.s|
    ensures Stops(md, st)
  {
    hide Run, Call, CapAlts, BraAlts, KAt, EncGroup, EncProgram, Has, BranchAt, Get, OpenLen, At, ValidNodes, Span, Restore;
    var g, m, f := Early(x), Limited(md, 3), Begin(md);
    var open, st1 := f.(pc := OpenLen(At(m.code, 0))), st.(count := 1);
    ProgramAt(g);
    GroupCode(m, 0, g);
    RunIsBra(m, st1, f, g);
    LastCode(m, 0, g.b, g, 0);
    LinkAhead(m, g);
    BranchTried(m, st1, f);
    CallRuns(m, st1, open);
    BranchCode(m, 0, g.b, NoAlt, g, 0, f.eptr, Done);
    EarlyRuns(m, st.(count := 2), open, x, In(g.b, g, 0, f.eptr, Done));
    CallRuns(m, st, f);
    assert Call(m, st, f, false).rc in {MATCH, NOMATCH};
  }

  lemma EarlySize(x: Nodes)
    ensures |EncProgram(Early(x))| == 18 + |EncNodes(x)|
  {
    ForkSize(x);
    hide Fork, EncNodes, EncNode;
    var ns := Cons(Grp(NoPrefix, Fork(x)), Nil);
    ConsSize(One(Lit(97, false)), ns);
    ConsSize(Grp(NoPrefix, Fork(x)), Nil);
    assert |EncAlts(NoAlt)| == 0;
  }

  lemma ForkSize(x: Nodes)
    ensures |EncNode(Grp(NoPrefix, Fork(x)))| == 9 + |EncNodes(x)| && |EncNode(One(Lit(97, false)))| == 2
  {
    assert |EncNodes(Nil)| == 0 && |EncAlts(NoAlt)| == 0;
    assert |EncAlts(Alt(x, NoAlt))| == 3 + |EncNodes(x)|;
    hide EncNodes, EncAlts;
    assert EncNode(Grp(NoPrefix, Fork(x))) == [] + EncGroup(Fork(x));
  }

  lemma ConsSize(n: Node, rest: Nodes)
    ensures |EncNodes(Cons(n, rest))| == |EncNode(n)| + |EncNodes(rest)| && |EncNodes(Nil)| == 0
  {
    hide EncNode;
  }

  lemma SpareOk()
    ensures Compilable(Spare(), NoMore, false) && !GuardedGroup(Compile(Spare(), NoMore, false))
  {
    SpareLowered();
    WholeCode();
    EarlySize(Whole());
    OuterLowered();
    hide Spare, Whole, EncGroup, EncNodes, EncProgram;
    assert ValidMore(NoMore, false) && SafeMore(NoMore) && NoAtomicMore(NoMore) && CountMore(NoMore) == 0;
    assert !GuardedGroup(Early(Whole()));
  }

  /** A trap need not keep match() from ending by itself on every subject. */
  lemma UnguardedEnds(notempty: bool)
    ensures Compilable(Spare(), NoMore, false) && !GuardedGroup(Compile(Spare(), NoMore, false))
    ensures AlwaysStops(Spare(), NoMore, false, notempty)
  {
    SpareOk();
    SpareLowered();
    hide Spare, Whole, EncProgram, Stops, ValidGroup, Compile;
    forall md: Md, st: State | Called(md, st, Spare(), NoMore) && md.c.nocase == false && md.c.notempty == notempty ensures Stops(md, st) {
      CompilableFormed(Spare(), NoMore, false);
      EarlyStops(md, st, Whole());
    }
  }
}
