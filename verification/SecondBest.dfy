/** Where match() does not find the first way: (?:b|(?:a|)*)* is compiled with an S bracket
    that ends where the S bracket around it ends, and on the subject ab it stops after the a. */
module SecondBest {
  import opened Bytes
  import opened Code
  import opened Layout
  import opened Semantics
  import opened Shape
  import opened Machine
  import opened Pattern
  import opened Lowering
  import opened Preservation
  import opened Limits
  import opened Emptiness
  import opened Termination
  import opened Simulation
  import opened Correctness
  import opened Theorems

  const a: Byte := 97
  const b: Byte := 98

  function Inner(): Item { Paren(false, Then(Atom(Lit(a, false), NoQ), Empty), Or(Empty, NoMore), Q(0, -1, Greedy)) }

  function Outer(): Item {
    Paren(false, Then(Atom(Lit(b, false), NoQ), Empty), Or(Then(Inner(), Empty), NoMore), Q(0, -1, Greedy))
  }

  function Whole(): Branch { Then(Outer(), Empty) }

  const CODE: seq<Byte> := [
    OP_BRA, 0, 27, OP_BRAZERO, OP_SBRA, 0, 5, OP_CHAR, b, OP_ALT, 0, 15,
    OP_BRAZERO, OP_SBRA, 0, 5, OP_CHAR, a, OP_ALT, 0, 3, OP_KETRMAX, 0, 8,
    OP_KETRMAX, 0, 20, OP_KET, 0, 27, OP_END]

  function Ga(): Group { Group(0, true, Cons(One(Lit(a, false)), Nil), Alt(Nil, NoAlt), KetRMax) }

  function Rest(): Nodes { Cons(Grp(BraZero, Ga()), Nil) }

  function Gb(): Group { Group(0, true, Cons(One(Lit(b, false)), Nil), Alt(Rest(), NoAlt), KetRMax) }

  function Top(): Group { Group(0, false, Cons(Grp(BraZero, Gb()), Nil), NoAlt, Ket) }

  // ---------- the pattern ----------

  lemma InnerLowered()
    ensures ValidItem(Inner(), false) && LowerBranch(Then(Inner(), Empty), 0, false) == Rest()
  {
    assert LowerBranch(Empty, 0, false) == Nil && LowerMore(NoMore, 0, false) == NoAlt;
    assert LowerMore(Or(Empty, NoMore), 0, false) == Alt(Nil, NoAlt);
    assert LowerBranch(Inner().b, 0, false) == Cons(One(Lit(a, false)), Nil);
    var g := Group(0, false, Cons(One(Lit(a, false)), Nil), Alt(Nil, NoAlt), Ket);
    assert LowerGroup(Inner(), 0, false) == g;
    assert GroupCouldBeEmpty(g) && Unlimited(g, Greedy) == Ga();
    hide LowerGroup;
    assert LowerBranch(Then(Inner(), Empty), 0, false) == GroupNodes(LowerGroup(Inner(), 0, false), Inner().q, LowerBranch(Empty, 0, false));
  }

  lemma OuterValid()
    ensures ValidBranch(Then(Inner(), Empty), false) && ValidItem(Outer(), false) && ValidBranch(Outer().b, false)
  {
    InnerLowered();
    FirstLowered();
    hide Inner, ValidBranch, ValidItem, ValidMore, LowerBranch;
    OrValid(Then(Inner(), Empty), NoMore, false);
    ThenValid(Inner(), Empty, false);
    ParenValid(Outer(), false);
  }

  lemma OuterLowered()
    ensures ValidItem(Outer(), false)
    ensures LowerGroup(Outer(), 0, false) == Group(0, false, Cons(One(Lit(b, false)), Nil), Alt(Rest(), NoAlt), Ket)
  {
    InnerLowered();
    OuterValid();
    FirstLowered();
    hide Inner, Rest, ValidItem, ValidBranch, ValidMore, LowerBranch, LowerMore, Count;
    TwoBranches(Outer());
  }

  lemma TwoBranches(i: Item)
    requires ValidItem(i, false) && i.Paren? && !i.capturing && i.more.Or? && i.more.more == NoMore && Count(i.b) == 0
    ensures ValidBranch(i.b, false) && ValidBranch(i.more.b, false)
    ensures LowerGroup(i, 0, false) == Group(0, false, LowerBranch(i.b, 0, false), Alt(LowerBranch(i.more.b, 0, false), NoAlt), Ket)
  {
    ParenValid(i, false);
    hide LowerBranch, ValidBranch;
    assert i.more == Or(i.more.b, NoMore);
    assert forall n: nat :: LowerMore(NoMore, n, false) == NoAlt;
    assert LowerMore(i.more, 0, false) == Alt(LowerBranch(i.more.b, 0, false), NoAlt);
  }

  lemma FirstLowered()
    ensures ValidBranch(Then(Atom(Lit(b, false), NoQ), Empty), false)
    ensures LowerBranch(Then(Atom(Lit(b, false), NoQ), Empty), 0, false) == Cons(One(Lit(b, false)), Nil)
    ensures Count(Then(Atom(Lit(b, false), NoQ), Empty)) == 0
  {
    assert LowerBranch(Empty, 0, false) == Nil && Count(Empty) == 0;
  }

  lemma Lowered()
    ensures ValidBranch(Whole(), false) && Compile(Whole(), NoMore, false) == Top()
  {
    OuterLowered();
    var g := LowerGroup(Outer(), 0, false);
    assert LowerBranch(Empty, 0, false) == Nil && LowerMore(NoMore, 0, false) == NoAlt;
    hide LowerGroup;
    assert CouldBeEmpty(Rest());
    assert GroupCouldBeEmpty(g) && Unlimited(g, Greedy) == Gb();
    assert LowerBranch(Whole(), 0, false) == GroupNodes(g, Outer().q, LowerBranch(Empty, 0, false));
  }

  lemma CodeOfA()
    ensures EncGroup(Ga()) == CODE[13..24]
  {
    assert EncNodes(Ga().b) == [OP_CHAR, a] && EncAlts(Ga().more) == [OP_ALT, 0, 3];
    assert EncHead(Ga()) == [OP_SBRA, 0, 5];
  }

  lemma CodeOfRest()
    ensures EncNodes(Rest()) == CODE[12..24]
  {
    CodeOfA();
    hide EncGroup, Ga;
    assert EncNodes(Nil) == [];
    assert EncNode(Grp(BraZero, Ga())) == [OP_BRAZERO] + EncGroup(Ga());
    assert CODE[12..24] == [OP_BRAZERO] + CODE[13..24];
  }

  lemma CodeOfB()
    ensures EncGroup(Gb()) == CODE[4..27]
  {
    CodeOfRest();
    hide Rest, EncGroup, EncNode;
    var g, e := Gb(), EncNodes(Rest());
    assert EncNodes(g.b) == [OP_CHAR, b] by { OneB(); }
    assert |EncAlts(g.more)| == 15 && EncAlts(g.more) == [OP_ALT, 0, 15] + e by { AltOf(Rest()); }
    HeadOf(g, 0, 5);
    GroupOf(g);
    assert EncGroup(g) == [OP_SBRA, 0, 5] + [OP_CHAR, b] + ([OP_ALT, 0, 15] + e) + [OP_KETRMAX] + [0, 20];
    BytesOfB(e);
  }

  lemma BytesOfB(e: seq<Byte>)
    requires e == CODE[12..24]
    ensures [OP_SBRA, 0, 5] + [OP_CHAR, b] + ([OP_ALT, 0, 15] + e) + [OP_KETRMAX] + [0, 20] == CODE[4..27]
  {
    var whole := [OP_SBRA, 0, 5] + [OP_CHAR, b] + ([OP_ALT, 0, 15] + e) + [OP_KETRMAX] + [0, 20];
    forall i | 0 <= i < 23 ensures whole[i] == CODE[4..27][i] {
      assert CODE[4..27][i] == CODE[4 + i];
      if 8 <= i < 20 { assert e[i - 8] == CODE[12 + (i - 8)]; }
    }
  }

  lemma OneB()
    ensures EncNodes(Cons(One(Lit(b, false)), Nil)) == [OP_CHAR, b]
  {
  }

  lemma AltOf(ns: Nodes)
    requires |EncNodes(ns)| < 200
    ensures EncAlts(Alt(ns, NoAlt)) == [OP_ALT, 0, 3 + |EncNodes(ns)|] + EncNodes(ns)
  {
    hide EncNodes;
    assert EncAlts(NoAlt) == [];
  }

  lemma HeadOf(g: Group, hi: Byte, lo: Byte)
    requires g.cap == 0 && Link(3 + |EncNodes(g.b)|) == [hi, lo]
    ensures EncHead(g) == [BraOp(g), hi, lo]
  {
    hide EncNodes;
  }

  lemma GroupOf(g: Group)
    ensures EncGroup(g) == EncHead(g) + EncNodes(g.b) + EncAlts(g.more) + [KetOp(g.ket)] + Link(HeadLen(g) + |EncNodes(g.b)| + |EncAlts(g.more)|)
  {
    hide EncNodes, EncAlts, EncHead;
  }

  lemma CodeOfTop()
    ensures EncProgram(Top()) == CODE
  {
    CodeOfB();
    hide EncGroup, Gb, EncAlts;
    var g := Top();
    assert EncNodes(Nil) == [];
    assert EncNode(Grp(BraZero, Gb())) == [OP_BRAZERO] + EncGroup(Gb());
    assert EncNodes(g.b) == [OP_BRAZERO] + CODE[4..27];
    assert EncAlts(NoAlt) == [] by { NoAlts(); }
    hide EncNodes, EncNode;
    HeadOf(g, 0, 27);
    GroupOf(g);
    BytesOfTop(CODE[4..27]);
  }

  lemma BytesOfTop(e: seq<Byte>)
    requires e == CODE[4..27]
    ensures [OP_BRA, 0, 27] + ([OP_BRAZERO] + e) + [] + [OP_KET] + [0, 27] + [OP_END] == CODE
  {
    var whole := [OP_BRA, 0, 27] + ([OP_BRAZERO] + e) + [] + [OP_KET] + [0, 27] + [OP_END];
    forall i | 0 <= i < 31 ensures whole[i] == CODE[i] {
      if 4 <= i < 27 { assert e[i - 4] == CODE[4 + (i - 4)]; }
    }
  }

  lemma NoAlts()
    ensures EncAlts(NoAlt) == []
  {
  }

  /** It is a pattern like any other, but not tame. */
  lemma WholeHalts()
    ensures Halting(Whole(), NoMore, false) && !Usable(Whole(), NoMore, false)
    ensures EncProgram(Compile(Whole(), NoMore, false)) == CODE
  {
    Lowered();
    CodeOfTop();
    hide EncProgram;
    assert Safe(Whole()) && Count(Whole()) == 0 by { WholeSafe(); }
    assert GuardedGroup(Top()) && !TameGroup(Top()) by { NotTame(); }
    assert NoAtomic(Whole()) && NoAtomicMore(NoMore) by { WholePlain(); }
  }

  lemma WholePlain()
    ensures NoAtomic(Whole()) && NoAtomicMore(NoMore)
  {
    assert NoAtomic(Then(Inner(), Empty));
    hide Inner;
    assert NoAtomic(Empty) && NoAtomicMore(NoMore);
    assert NoAtomic(Outer().b) && NoAtomicMore(Outer().more);
  }

  lemma WholeSafe()
    ensures Safe(Whole()) && SafeMore(NoMore) && Count(Whole()) == 0 == CountMore(NoMore)
  {
    assert Safe(Then(Inner(), Empty)) && Count(Then(Inner(), Empty)) == 0;
    hide Inner;
    assert SafeMore(NoMore) && CountMore(NoMore) == 0 && Safe(Empty) && Count(Empty) == 0;
    assert Safe(Outer().b) && SafeMore(Outer().more);
    assert Count(Outer().b) == 0 && CountMore(Outer().more) == 0;
  }

  lemma NotTame()
    ensures GuardedGroup(Top()) && !TameGroup(Top())
  {
    assert Guarded(Rest()) && GuardedGroup(Gb());
    assert !TameGroup(Gb());
  }

  // ---------- the ways ----------

  /** The subject and the options. */
  predicate OnAb(c: Ctx) { c == Ctx([a, b], false, c.multiline, c.endonly, c.notbol, c.noteol, c.notempty) }

  function P(p: nat, vec: seq<int>): Res { Res(p, vec, 2) }

  lemma LitWays(c: Ctx, x: Byte, p: nat, vec: seq<int>)
    requires OnAb(c) && p <= 2
    ensures AllNodes(c, Cons(One(Lit(x, false)), Nil), P(p, vec)) == if p < 2 && c.s[p] == x then [P(p + 1, vec)] else []
  {
    var rs := AllNode(c, One(Lit(x, false)), P(p, vec));
    assert AllNodes(c, Cons(One(Lit(x, false)), Nil), P(p, vec)) == Each(c, Nil, p, rs);
    assert Each(c, Nil, p, []) == [];
    if rs != [] { assert rs[1..] == []; }
  }

  lemma RestWays(c: Ctx, g: Group, p: nat, vec: seq<int>)
    requires OnAb(c) && p <= 2 && AllGroup(c, g, P(p, vec)) != []
    ensures var rs := AllNodes(c, Cons(Grp(BraZero, g), Nil), P(p, vec)); rs != [] && rs[0] == AllGroup(c, g, P(p, vec))[0]
  {
    hide AllGroup;
    var rs := AllNode(c, Grp(BraZero, g), P(p, vec));
    assert AllNodes(c, Cons(Grp(BraZero, g), Nil), P(p, vec)) == Each(c, Nil, p, rs);
    assert Each(c, Nil, p, rs) == AllNodes(c, Nil, rs[0]) + Each(c, Nil, p, rs[1..]);
    assert AllNodes(c, Nil, rs[0]) == [rs[0]];
  }

  /** What comes first at the ket comes first. */
  lemma KetFirst(c: Ctx, g: Group, p: nat, rs: seq<Res>)
    requires p <= |c.s| && Good(c, p, rs) && rs != [] && g.ket == KetRMax && g.cap == 0
    requires rs[0].pos > p ==> AllGroup(c, g, rs[0]) != []
    ensures AfterKet(c, g, p, rs) != [] && AfterKet(c, g, p, rs)[0] == if rs[0].pos > p then AllGroup(c, g, rs[0])[0] else rs[0]
  {
    hide AllGroup;
    assert Close(g.cap, p, rs[0]) == rs[0];
  }

  /** The first way of (?:a|)+ takes an a, if there is one. */
  lemma FirstOfA(c: Ctx, p: nat, vec: seq<int>)
    requires OnAb(c) && p <= 2
    ensures AllGroup(c, Ga(), P(p, vec)) != [] && AllGroup(c, Ga(), P(p, vec))[0] == P(if p == 0 then 1 else p, vec)
    decreases 2 - p
  {
    LitWays(c, a, p, vec);
    var g, r := Ga(), P(p, vec);
    assert AllNodes(c, Nil, r) == [r] && AllAlts(c, NoAlt, r) == [];
    assert AllAlts(c, g.more, r) == [r];
    if p == 0 { FirstOfA(c, 1, vec); }
    hide AllGroup, AllNodes, AllAlts, AfterKet;
    GroupIs(c, g, r);
    KetFirst(c, g, p, AllNodes(c, g.b, r) + AllAlts(c, g.more, r));
  }

  lemma GroupIs(c: Ctx, g: Group, r: Res)
    requires r.pos <= |c.s|
    ensures AllGroup(c, g, r) == AfterKet(c, g, r.pos, AllNodes(c, g.b, r) + AllAlts(c, g.more, r))
  {
    hide AllNodes, AllAlts, AfterKet;
  }

  /** The first way of the whole takes the a, and then the b. */
  lemma FirstOfB(c: Ctx, p: nat, vec: seq<int>)
    requires OnAb(c) && p <= 2
    ensures AllGroup(c, Gb(), P(p, vec)) != [] && AllGroup(c, Gb(), P(p, vec))[0] == P(2, vec)
    decreases 2 - p
  {
    LitWays(c, b, p, vec);
    FirstOfA(c, p, vec);
    RestWays(c, Ga(), p, vec);
    var g, r := Gb(), P(p, vec);
    if p < 2 { FirstOfB(c, p + 1, vec); }
    AltIs(c, Rest(), r);
    hide AllGroup, AllNodes, AllAlts, AfterKet;
    GroupIs(c, g, r);
    KetFirst(c, g, p, AllNodes(c, g.b, r) + AllAlts(c, g.more, r));
  }

  lemma AltIs(c: Ctx, ns: Nodes, r: Res)
    requires r.pos <= |c.s|
    ensures AllAlts(c, Alt(ns, NoAlt), r) == AllNodes(c, ns, r)
  {
    hide AllNodes;
    assert AllAlts(c, NoAlt, r) == [];
  }

  lemma FirstWay(c: Ctx, vec: seq<int>)
    requires OnAb(c)
    ensures var ways := Filter(c, 0, Matches(c, Whole(), NoMore, P(0, vec))); ways != [] && ways[0] == P(2, vec)
  {
    WholeHalts();
    Lowered();
    CompilableOk(c, Whole(), NoMore, P(0, vec));
    FirstOfB(c, 0, vec);
    RestWays(c, Gb(), 0, vec);
    var g, r := Top(), P(0, vec);
    hide AllGroup, AllNodes, AllAlts, AfterKet, Matches, Compile, EncProgram, Gb, Whole, Halting, Usable;
    assert AllAlts(c, NoAlt, r) == [] by { NoAltWays(c, r); }
    GroupIs(c, g, r);
    var rs := AllNodes(c, g.b, r);
    assert rs + [] == rs;
    OnceFirst(c, g, rs);
  }

  lemma NoAltWays(c: Ctx, r: Res)
    requires r.pos <= |c.s|
    ensures AllAlts(c, NoAlt, r) == []
  {
  }

  lemma OnceFirst(c: Ctx, g: Group, rs: seq<Res>)
    requires Good(c, 0, rs) && rs != [] && g.ket == Ket && g.cap == 0 && rs[0].pos == 2
    ensures var out := Filter(c, 0, AfterKet(c, g, 0, rs)); out != [] && out[0] == rs[0]
  {
    hide AllGroup;
    assert Close(g.cap, 0, rs[0]) == rs[0];
  }

  // ---------- the run ----------

  /** match() at f, with n calls to spare, stops after the a. */
  ghost predicate StopsAt1(md: Md, st: State, f: Frame) { Wf(md, st, f) && Run(md, st, f).rc == MATCH && Run(md, st, f).st.endPtr == 1 }

  ghost predicate Ready(md: Md, st: State, f: Frame, n: nat) {
    Wf(md, st, f) && md.code == CODE && OnAb(md.c) && md.mstart == 0 && st.count + n <= md.limit && f.rdepth + n <= md.rlimit
  }

  /** A ket of a bracket that captures nothing. */
  lemma AtKet(md: Md, st: State, f: Frame, g: Group, gpc: nat)
    requires Ready(md, st, f, 0) && gpc < f.pc < |CODE| && At(CODE, f.pc) == KetOp(g.ket) && Get(CODE, f.pc + 1) == f.pc - gpc
    requires At(CODE, gpc) == BraOp(g) && g.cap == 0 && (g.s ==> f.chain != [])
    ensures var f1, empty := f.(chain := if g.s then f.chain[1..] else f.chain), g.s && f.eptr == f.chain[0];
      var after, again := f1.(pc := f.pc + 3), f1.(pc := gpc);
      && (g.ket == Ket || empty ==> Run(md, st, f) == Run(md, st, after))
      && (g.ket == KetRMax && !empty ==> var o := Deeper(md, st, again, g.s); o.rc == MATCH ==> Run(md, st, f) == o)
  {
    hide Run, Call, Deeper, AfterClose;
    KetRuns(md, st, f, g, gpc);
    var f1 := f.(chain := if g.s then f.chain[1..] else f.chain);
    assert f.(chain := f1.chain, top := f.top) == f1;
    CloseIs(md, st, f1, In(Nil, g, gpc, 0, Done), g.s && f.eptr == f.chain[0]);
  }

  /** The whole bracket has been closed: a match. */
  lemma AtTopKet(md: Md, st: State, f: Frame)
    requires Ready(md, st, f, 0) && f.pc == 27 && f.eptr == 1
    ensures StopsAt1(md, st, f)
  {
    AtKet(md, st, f, Top(), 0);
    hide Call, Deeper, RunRepeat, RunBra, RunKet, DecodeRepeat, SkipAlts;
    assert f.(chain := f.chain) == f;
    assert Run(md, st, f) == Run(md, st, f.(pc := 30));
  }

  /** A ket whose popped block is where the matcher stands. */
  lemma AtEmptyKet(md: Md, st: State, f: Frame)
    requires Ready(md, st, f, 0) && (f.pc == 21 || f.pc == 24) && f.chain != [] && f.chain[0] == f.eptr
    ensures Run(md, st, f) == Run(md, st, f.(pc := f.pc + 3, chain := f.chain[1..]))
  {
    hide Run;
    if f.pc == 21 { AtKet(md, st, f, Ga(), 13); } else { AtKet(md, st, f, Gb(), 4); }
  }

  /** The ket of the inner bracket after progress: round again, with one block more. */
  lemma AtInnerKet(md: Md, st: State, f: Frame)
    requires Ready(md, st, f, 0) && f.pc == 21 && f.chain != [] && f.chain[0] != f.eptr
    ensures var o := Deeper(md, st, f.(pc := 13, chain := f.chain[1..]), true); o.rc == MATCH ==> Run(md, st, f) == o
  {
    hide Run, Deeper;
    AtKet(md, st, f, Ga(), 13);
  }

  /** A bracket: its first branch, and then its second. */
  lemma AtBracket(md: Md, st: State, f: Frame)
    requires Ready(md, st, f, 0) && (f.pc == 4 || f.pc == 13)
    ensures var o := Deeper(md, st, f.(pc := f.pc + 3), true);
      Run(md, st, f) == if o.rc != NOMATCH then o else Deeper(md, o.st, f.(pc := f.pc + 8), true)
  {
    hide Run, Call, Deeper, CapAlts, BraAlts, Get;
    RunAtBra(md, st, f);
    assert RunBra(md, st, f) == BraAlts(md, st, f, true);
    hide RunBra, At;
    AtFirstBranch(md, st, f);
    var o := Deeper(md, st, f.(pc := f.pc + 3), true);
    if o.rc == NOMATCH { AtLastBranch(md, o.st, f.(pc := f.pc + 5)); }
  }

  lemma AtFirstBranch(md: Md, st: State, f: Frame)
    requires Wf(md, st, f) && md.code == CODE && (f.pc == 4 || f.pc == 13)
    ensures var o := Deeper(md, st, f.(pc := f.pc + 3), true);
      BraAlts(md, st, f, true) == if o.rc != NOMATCH then o else BraAlts(md, o.st, f.(pc := f.pc + 5), true)
  {
    hide Call, Deeper, Run;
    if f.pc == 4 { assert Get(CODE, 5) == 5 && At(CODE, 9) == OP_ALT; } else { assert Get(CODE, 14) == 5 && At(CODE, 18) == OP_ALT; }
    assert OpenLen(At(CODE, f.pc)) == 3;
    hide Get, At;
  }

  lemma AtLastBranch(md: Md, st: State, f: Frame)
    requires Wf(md, st, f) && md.code == CODE && (f.pc == 9 || f.pc == 18)
    ensures BraAlts(md, st, f, true) == Deeper(md, st, f.(pc := f.pc + 3), true)
  {
    hide Call, Deeper, Run;
  }

  lemma AtByte(md: Md, st: State, f: Frame)
    requires Ready(md, st, f, 0) && (f.pc == 7 || f.pc == 16) && f.eptr < 2
    ensures Run(md, st, f) == if md.c.s[f.eptr] == CODE[f.pc + 1] then Run(md, st, f.(pc := f.pc + 2, eptr := f.eptr + 1)) else Out(NOMATCH, st)
  {
    hide Call, Deeper, RunKet, RunBra, Lazily, WalkBack, SkipAlts;
    var x := Lit(CODE[f.pc + 1], false);
    assert DecodeRepeat(md, f.pc) == Repeat(x, 1, 1, false, false, f.pc + 2);
    assert MinOk(md.c, x, f.eptr, 1) == (md.c.s[f.eptr] == CODE[f.pc + 1]);
    assert Run(md, st, f) == RunRepeat(md, st, f, DecodeRepeat(md, f.pc));
  }

  lemma AtAlt(md: Md, st: State, f: Frame)
    requires Ready(md, st, f, 0) && f.pc == 18
    ensures Run(md, st, f) == Run(md, st, f.(pc := 21))
  {
    hide Call, Deeper, RunKet, RunRepeat, RunBra, DecodeRepeat;
    assert SkipAlts(md.code, 18) == 21;
  }

  lemma AtPrefix(md: Md, st: State, f: Frame)
    requires Ready(md, st, f, 0) && (f.pc == 3 || f.pc == 12)
    ensures var o := Deeper(md, st, f.(pc := f.pc + 1), false); o.rc == MATCH ==> Run(md, st, f) == o
  {
    hide Call, Deeper, SkipAlts;
    RunAtZero(md, st, f);
  }

  lemma AtTop(md: Md, st: State, f: Frame)
    requires Ready(md, st, f, 0) && f.pc == 0
    ensures Run(md, st, f) == Call(md, st, f.(pc := 3), false)
  {
    hide Run, Call, Deeper, CapAlts;
    RunAtBra(md, st, f);
    assert RunBra(md, st, f) == BraAlts(md, st, f, false);
  }

  lemma Called(md: Md, st: State, f: Frame, cbe: bool)
    requires Ready(md, st, f, 2)
    ensures var st1, f1 := st.(count := st.count + 1), if cbe then f.(chain := [f.eptr] + f.chain) else f;
      Ready(md, st1, f1, 1) && Call(md, st, f, cbe) == Run(md, st1, f1) &&
      Deeper(md, st, f, cbe) == Run(md, st1, f1.(rdepth := f.rdepth + 1))
  {
    hide Run;
  }

  /** The inner bracket, entered again after the a, leaves the block of that entry on
      the chain: it stops the outer ket. */
  lemma SecondRound(md: Md, st: State, f: Frame)
    requires Ready(md, st, f, 4) && f.pc == 13 && f.eptr == 1 && f.chain == [1, 0]
    ensures StopsAt1(md, st, f)
  {
    hide Run, Call, Deeper;
    AtBracket(md, st, f);
    Called(md, st, f.(pc := 16), true);
    var st1 := st.(count := st.count + 1);
    AtByte(md, st1, f.(pc := 16, chain := [1] + f.chain, rdepth := f.rdepth + 1));
    Called(md, st1, f.(pc := 21), true);
    var st2, g := st1.(count := st1.count + 1), f.(pc := 21, chain := [1] + f.chain, rdepth := f.rdepth + 1);
    assert g.chain[1..] == [1, 0] && [1, 0][1..] == [0];
    AtEmptyKet(md, st2, g);
    AtEmptyKet(md, st2, g.(pc := 24, chain := [1, 0]));
    AtTopKet(md, st2, g.(pc := 27, chain := [0]));
  }

  lemma FirstRound(md: Md, st: State, f: Frame)
    requires Ready(md, st, f, 8) && f.pc == 13 && f.eptr == 0 && f.chain == [0]
    ensures StopsAt1(md, st, f)
  {
    hide Run, Call, Deeper;
    AtBracket(md, st, f);
    Called(md, st, f.(pc := 16), true);
    var st1, g := st.(count := st.count + 1), f.(pc := 16, chain := [0] + f.chain, rdepth := f.rdepth + 1);
    AtByte(md, st1, g);
    AtAlt(md, st1, g.(pc := 18, eptr := 1));
    var h := g.(pc := 21, eptr := 1);
    assert h.chain[1..] == [0];
    AtInnerKet(md, st1, h);
    Called(md, st1, h.(pc := 13, chain := [0]), true);
    SecondRound(md, st1.(count := st1.count + 1), h.(pc := 13, chain := [1] + [0], rdepth := h.rdepth + 1));
  }

  lemma OuterRound(md: Md, st: State, f: Frame)
    requires Ready(md, st, f, 14) && f.pc == 4 && f.eptr == 0 && f.chain == []
    ensures StopsAt1(md, st, f)
  {
    hide Run, Call, Deeper;
    AtBracket(md, st, f);
    Called(md, st, f.(pc := 7), true);
    var st1 := st.(count := st.count + 1);
    AtByte(md, st1, f.(pc := 7, chain := [0] + f.chain, rdepth := f.rdepth + 1));
    Called(md, st1, f.(pc := 12), true);
    var st2, g := st1.(count := st1.count + 1), f.(pc := 12, chain := [0] + f.chain, rdepth := f.rdepth + 1);
    assert g.chain == [0];
    AtPrefix(md, st2, g);
    Called(md, st2, g.(pc := 13), false);
    FirstRound(md, st2.(count := st2.count + 1), g.(pc := 13, rdepth := g.rdepth + 1));
  }

  /** On ab, match() ends after the a; the first way of matching ends after the b. Both
      with all limits that allow twenty calls, and whatever the options. */
  lemma StopsShort(md: Md, st: State)
    requires md.code == CODE && OnAb(md.c) && md.mstart == 0
    requires md.offsetEnd % 3 == 0 && |st.vec| == md.offsetEnd && st.count + 20 <= md.limit && 20 <= md.rlimit
    ensures Running(md, st, Whole(), NoMore) && !Usable(Whole(), NoMore, false)
    ensures var o, ways := Call(md, st, Begin(md), false), Filter(md.c, 0, Matches(md.c, Whole(), NoMore, Start(md, st)));
      o.rc == MATCH && o.st.endPtr == 1 && ways != [] && ways[0].pos == 2
  {
    WholeHalts();
    FirstWay(md.c, Start(md, st).vec);
    hide Run, Call, Deeper, Matches, Filter, Whole, Halting, Usable, EncProgram, Compile;
    var f := Begin(md);
    assert f == Frame(0, 0, 2, [], 0);
    Called(md, st, f, false);
    var st1 := st.(count := st.count + 1);
    AtTop(md, st1, f);
    Called(md, st1, f.(pc := 3), false);
    var st2 := st1.(count := st1.count + 1);
    AtPrefix(md, st2, f.(pc := 3));
    Called(md, st2, f.(pc := 4), false);
    OuterRound(md, st2.(count := st2.count + 1), f.(pc := 4, rdepth := 1));
  }
}
