/** The limits of match() on groups inside groups: how many calls they take, how deep
    they go, and which error is given when that is too much. */
module Depths {
  import opened Bytes
  import opened Code
  import opened Layout
  import opened Semantics
  import opened Machine
  import opened Simulation
  import opened Correctness
  import opened Pattern
  import opened Lowering
  import opened Limits
  import opened Theorems

  /** Capturing groups, one inside the other, around nothing. */
  function Nested(k: nat): Branch {
    if k == 0 then Empty else Then(Paren(true, Nested(k - 1), NoMore, NoQ), Empty)
  }

  /** Their code; n groups lie outside. */
  function Inner(k: nat, n: nat): Nodes
    decreases k, 1
  {
    if k == 0 then Nil else Cons(Grp(NoPrefix, Around(k, n)), Nil)
  }

  function Around(k: nat, n: nat): Group
    requires k > 0
    decreases k, 0
  {
    Group(n + 1, false, Inner(k - 1, n + 1), NoAlt, Ket)
  }

  lemma {:induction false} NestedLowered(k: nat, n: nat, nocase: bool)
    ensures ValidBranch(Nested(k), nocase) && LowerBranch(Nested(k), n, nocase) == Inner(k, n)
    decreases k
  {
    if k > 0 {
      NestedLowered(k - 1, n + 1, nocase);
      OneLowered(Nested(k - 1), n, nocase);
    }
  }

  lemma OneLowered(b: Branch, n: nat, nocase: bool)
    requires ValidBranch(b, nocase)
    ensures var all := Then(Paren(true, b, NoMore, NoQ), Empty);
      ValidBranch(all, nocase) &&
      LowerBranch(all, n, nocase) == Cons(Grp(NoPrefix, Group(n + 1, false, LowerBranch(b, n + 1, nocase), NoAlt, Ket)), Nil)
  {
    var i := Paren(true, b, NoMore, NoQ);
    ThenValid(i, Empty, nocase);
    ParenValid(i, nocase);
    OrValid(Empty, NoMore, nocase);
    NestedGroup(b, n, nocase);
    hide LowerGroup, ValidBranch, ValidItem, ValidMore, Count, CountItem;
    assert LowerBranch(Empty, n + CountItem(i), nocase) == Nil;
  }

  lemma NestedGroup(b: Branch, n: nat, nocase: bool)
    requires ValidBranch(b, nocase) && ValidItem(Paren(true, b, NoMore, NoQ), nocase)
    ensures LowerGroup(Paren(true, b, NoMore, NoQ), n, nocase) == Group(n + 1, false, LowerBranch(b, n + 1, nocase), NoAlt, Ket)
  {
    hide ValidBranch, Count, CountItem, LowerBranch;
    assert LowerMore(NoMore, n + 1 + Count(b), nocase) == NoAlt;
  }

  /** Nothing but plain kets before the end of the pattern. */
  predicate Closing(k: Cont) {
    k.In? ==> k.ns.Nil? && k.g.cap < 0x1_0000 && !k.g.s && k.g.ket == Ket && Closing(k.k)
  }

  function Final(md: Md, eptr: nat): RC { if md.c.notempty && eptr == md.mstart then NOMATCH else MATCH }

  /** No call is made on the way to the end. */
  lemma {:induction false} ClosingRuns(md: Md, st: State, f: Frame, k: Cont)
    requires MdOk(md) && Wf(md, st, f) && KAt(md.code, f.pc, k) && Closing(k)
    ensures Run(md, st, f).rc == Final(md, f.eptr)
    decreases k, |md.code| - f.pc
  {
    hide Call, Deeper, RunRepeat, DecodeRepeat, EncGroup, EncNodes, EncAlts, KetState, SkipAlts, Has;
    if k.In? {
      if f.pc != k.gpc + Span(k.g) {
        BranchEnd(md, st, f, k);
        ClosingRuns(md, st, f.(pc := k.gpc + Span(k.g)), k);
      } else {
        GroupAt(md.code, k.gpc, k.g);
        var cap := k.g.cap != 0;
        KetRuns(md, st, f, k);
        ClosingRuns(md, if cap then KetState(md, st, k.g.cap, f.eptr) else st,
                    f.(pc := f.pc + 3, top := if cap then KetTop(md, f.top, k.g.cap) else f.top), k.k);
      }
    }
  }

  lemma KetRuns(md: Md, st: State, f: Frame, k: Cont)
    requires MdOk(md) && Wf(md, st, f) && KAt(md.code, f.pc, k) && Closing(k) && k.In? && f.pc == k.gpc + Span(k.g)
    ensures var cap := k.g.cap != 0;
      var st1 := if cap then KetState(md, st, k.g.cap, f.eptr) else st;
      Wf(md, st1, f) && Run(md, st, f) == Run(md, st1, f.(pc := f.pc + 3, top := if cap then KetTop(md, f.top, k.g.cap) else f.top))
  {
    hide Call, Deeper, RunRepeat, RunBra, DecodeRepeat, EncGroup, EncNodes, EncAlts, KetState, KetTop, SkipAlts, Has, Span, Get, At;
    GroupAt(md.code, k.gpc, k.g);
    GapIs(k.g);
    InsideCode(md.code, f.pc);
    assert Run(md, st, f) == RunKet(md, st, f);
  }

  lemma InsideCode(code: seq<Byte>, pc: nat)
    requires At(code, pc) == OP_KET
    ensures pc < |code| && code[pc] == OP_KET
  {
  }

  /** The calls that lie ahead, one for each group: the count of calls is looked at
      before the depth, which rises for the groups that the vector has room for. */
  function Ahead(md: Md, count: nat, depth: nat, k: nat, n: nat, last: RC): RC
    decreases k
  {
    if k == 0 then last
    else
      var deeper := if 2 * (n + 1) < md.OffsetMax() then depth + 1 else depth;
      if count >= md.limit then MATCHLIMIT
      else if deeper >= md.rlimit then RECURSIONLIMIT
      else Ahead(md, count + 1, deeper, k - 1, n + 1, last)
  }

  predicate InsideAll(k: Cont, j: nat, n: nat) { k.In? && k.ns == Inner(j, n) && Closing(k.(ns := Nil)) && n + j < 0x1_0000 }

  lemma {:induction false} OpeningRuns(md: Md, st: State, f: Frame, k: Cont, j: nat, n: nat)
    requires MdOk(md) && Wf(md, st, f) && KAt(md.code, f.pc, k) && InsideAll(k, j, n)
    ensures Run(md, st, f).rc == Ahead(md, st.count, f.rdepth, j, n, Final(md, f.eptr))
    decreases j
  {
    hide Run, Call, KAt, MdOk, Final;
    if j == 0 {
      NoneLeft(k, n);
      ClosingRuns(md, st, f, k);
    } else {
      var g := Around(j, n);
      GroupOpens(md, st, f, k, j, n);
      GroupPlace(md, f.pc, k, j, n);
      var k2 := In(g.b, g, f.pc, 0, k.(ns := Nil));
      var st1, in_ := Entered(md, st, f.eptr, n), Below(md, f, n);
      CallIs(md, st1, in_);
      if st.count < md.limit && in_.rdepth < md.rlimit {
        OpeningRuns(md, st1.(count := st.count + 1), in_, k2, j - 1, n + 1);
      }
    }
  }

  lemma NoneLeft(k: Cont, n: nat)
    requires InsideAll(k, 0, n)
    ensures Closing(k)
  {
    assert k.(ns := Nil) == k;
  }

  lemma CallIs(md: Md, st: State, f: Frame)
    requires Wf(md, st, f)
    ensures Call(md, st, f, false).rc ==
      if st.count >= md.limit then MATCHLIMIT else if f.rdepth >= md.rlimit then RECURSIONLIMIT else Run(md, st.(count := st.count + 1), f).rc
    ensures st.count < md.limit ==> Wf(md, st.(count := st.count + 1), f)
  {
    hide Run;
  }

  predicate Fits(md: Md, n: nat) { 2 * (n + 1) < md.OffsetMax() }

  function Below(md: Md, f: Frame, n: nat): Frame { f.(pc := f.pc + 5, rdepth := if Fits(md, n) then f.rdepth + 1 else f.rdepth) }

  function Entered(md: Md, st: State, eptr: nat, n: nat): State
    requires md.offsetEnd % 3 == 0 && |st.vec| == md.offsetEnd
  {
    if Fits(md, n) then st.(vec := st.vec[md.offsetEnd - (n + 1) := eptr]) else st
  }

  /** A group is one more call; */
  lemma GroupOpens(md: Md, st: State, f: Frame, k: Cont, j: nat, n: nat)
    requires MdOk(md) && Wf(md, st, f) && KAt(md.code, f.pc, k) && InsideAll(k, j, n) && j > 0
    ensures var st1, in_ := Entered(md, st, f.eptr, n), Below(md, f, n);
      Wf(md, st1, in_) && Run(md, st, f).rc == Call(md, st1, in_, false).rc && st1.count == st.count
  {
    hide Run, Call, CapAlts, BraAlts, EncGroup, EncNodes, EncAlts, KAt, Has, SkipAlts, Restore, MdOk, Closing;
    var g := Around(j, n);
    GroupCodeAt(md, f.pc, k, j, n);
    RunIsBra(md, st, f, g);
    OneBranch(md, st, f, g);
  }

  lemma GroupCodeAt(md: Md, pc: nat, k: Cont, j: nat, n: nat)
    requires MdOk(md) && KAt(md.code, pc, k) && InsideAll(k, j, n) && j > 0
    ensures Has(md.code, pc, EncGroup(Around(j, n)))
    ensures KAt(md.code, pc + |EncGroup(Around(j, n))|, k.(ns := Nil))
  {
    hide EncGroup, EncNodes, EncAlts, KAt, Has, MdOk, Closing;
    KAtStep(md.code, pc, k);
    var g := Around(j, n);
    assert k.ns.n == Grp(NoPrefix, g) && k.ns.rest == Nil;
    assert EncNode(k.ns.n) == EncGroup(g) by { assert [] + EncGroup(g) == EncGroup(g); }
  }

  /** its branch stands after the head. */
  lemma GroupPlace(md: Md, pc: nat, k: Cont, j: nat, n: nat)
    requires MdOk(md) && KAt(md.code, pc, k) && InsideAll(k, j, n) && j > 0
    ensures var k2 := In(Around(j, n).b, Around(j, n), pc, 0, k.(ns := Nil)); KAt(md.code, pc + 5, k2) && InsideAll(k2, j - 1, n + 1)
  {
    hide EncGroup, EncNodes, EncAlts, KAt, Has, MdOk, SkipAlts;
    var g := Around(j, n);
    GroupCodeAt(md, pc, k, j, n);
    CodeSize(md);
    GroupAt(md.code, pc, g);
    GroupLength(g);
    KAtIn2(md.code, pc, g, k.(ns := Nil));
    assert In(g.b, g, pc, 0, k.(ns := Nil)).(ns := Nil) == In(Nil, g, pc, 0, k.(ns := Nil));
  }

  lemma CodeSize(md: Md)
    requires MdOk(md)
    ensures |md.code| <= MAX_PATTERN_SIZE
  {
  }

  lemma KAtIn2(code: seq<Byte>, pc: nat, g: Group, k: Cont)
    requires Has(code, pc, EncGroup(g)) && Has(code, pc + 5, EncNodes(g.b)) && Span(g) == 5 + |EncNodes(g.b)| && KAt(code, pc + Span(g) + 3, k)
    ensures KAt(code, pc + 5, In(g.b, g, pc, 0, k))
  {
    hide EncGroup, EncNodes, EncAlts, Has, SkipAlts, Span;
  }

  lemma GroupLength(g: Group)
    requires g.more.NoAlt? && g.cap != 0
    ensures HeadLen(g) == 5 && Span(g) == 5 + |EncNodes(g.b)| && |EncGroup(g)| == Span(g) + 3
  {
    hide EncNodes;
  }

  lemma OneBranch(md: Md, st: State, f: Frame, g: Group)
    requires MdOk(md) && Wf(md, st, f) && Has(md.code, f.pc, EncGroup(g)) && g.more.NoAlt? && g.cap != 0 && !g.s && g.ket == Ket
    ensures BraAlts(md, st, f, false) == Call(md, st, f.(pc := f.pc + 5), false)
    ensures var st1 := Started(md, st, g, f.eptr);
      Wf(md, st1, f) && CapAlts(md, st1, f, false) == Call(md, st1, f.(pc := f.pc + 5, rdepth := f.rdepth + 1), false)
  {
    hide Run, Call, EncGroup, EncNodes, EncAlts, Has, SkipAlts, At, Get;
    CodeSize(md);
    GroupAt(md.code, f.pc, g);
    GroupLength(g);
  }

  function Whole(k: nat): Group { Group(0, false, Inner(k, 0), NoAlt, Ket) }

  /** The groups, of k, that the vector has room for. */
  function Rooms(md: Md, k: nat): nat {
    if 2 * k < md.OffsetMax() then k else if md.OffsetMax() == 0 then 0 else (md.OffsetMax() - 1) / 2
  }

  /** What the limits say about k nested groups: k + 2 calls, and as deep as there are
      groups that have room. */
  function Verdict(md: Md, k: nat, last: RC): RC {
    var rooms := Rooms(md, k);
    if md.limit <= (if md.rlimit == 0 then 0 else if md.rlimit > rooms then k + 1 else md.rlimit + 1) then MATCHLIMIT
    else if md.rlimit <= rooms then RECURSIONLIMIT
    else last
  }

  lemma {:induction false} AheadIs(md: Md, k: nat, n: nat, last: RC)
    requires n <= k && n + 2 <= md.limit && Rooms(md, n) < md.rlimit
    ensures Ahead(md, n + 2, Rooms(md, n), k - n, n, last) == Verdict(md, k, last)
    decreases k - n
  {
    if n < k && n + 2 < md.limit && Rooms(md, n + 1) < md.rlimit { AheadIs(md, k, n + 1, last); }
  }

  /** match() on k groups inside one another. Both limits are exact, and where both are
      too low the one that is reached first is reported, the number of calls if they are
      reached together. */
  lemma NestedLimits(md: Md, st: State, k: nat)
    requires md.code == EncProgram(Whole(k)) && |md.code| <= MAX_PATTERN_SIZE && k < 0x1_0000
    requires md.offsetEnd % 3 == 0 && |st.vec| == md.offsetEnd && st.count == 0 && md.mstart <= |md.c.s|
    ensures ValidBranch(Nested(k), md.c.nocase) && ValidMore(NoMore, md.c.nocase) && Compile(Nested(k), NoMore, md.c.nocase) == Whole(k)
    ensures Call(md, st, Begin(md), false).rc == Verdict(md, k, Final(md, md.mstart))
  {
    hide Run, Call, EncProgram, EncGroup, EncNodes, Has, KAt, InsideAll, Inner, Ahead, Compile, Nested, Rooms, Final, Whole, Span;
    NestedWhole(k, md.c.nocase);
    ProgramAt(Whole(k));
    var f, in_ := Begin(md), Begin(md).(pc := 3);
    CallIs(md, st, f);
    if md.limit > 0 && md.rlimit > 0 {
      var st1 := st.(count := 1);
      WholeOpens(md, st1, f, k);
      CallIs(md, st1, in_);
      if md.limit > 1 {
        OpeningRuns(md, st.(count := 2), in_, In(Inner(k, 0), Whole(k), 0, 0, Done), k, 0);
        NoRooms(md);
        AheadIs(md, k, 0, Final(md, md.mstart));
      }
    }
  }

  lemma NoRooms(md: Md)
    ensures Rooms(md, 0) == 0
  {
  }

  lemma NestedWhole(k: nat, nocase: bool)
    ensures ValidBranch(Nested(k), nocase) && ValidMore(NoMore, nocase) && Compile(Nested(k), NoMore, nocase) == Whole(k)
  {
    hide LowerBranch, ValidBranch, Inner;
    NestedLowered(k, 0, nocase);
    assert LowerMore(NoMore, Count(Nested(k)), nocase) == NoAlt;
  }

  lemma WholeOpens(md: Md, st: State, f: Frame, k: nat)
    requires MdOk(md) && Wf(md, st, f) && f.pc == 0 && Has(md.code, 0, EncGroup(Whole(k))) && KAt(md.code, Span(Whole(k)) + 3, Done) && k < 0x1_0000
    ensures Run(md, st, f) == Call(md, st, f.(pc := 3), false)
    ensures var k2 := In(Inner(k, 0), Whole(k), 0, 0, Done); KAt(md.code, 3, k2) && InsideAll(k2, k, 0)
  {
    hide Run, Call, EncGroup, EncNodes, Has, SkipAlts, At, Get, CapAlts;
    var g := Whole(k);
    CodeSize(md);
    GroupAt(md.code, 0, g);
    RunIsBra(md, st, f, g);
    assert HeadLen(g) == 3 && EncAlts(NoAlt) == [] && Span(g) == 3 + |EncNodes(g.b)|;
    assert Closing(In(Nil, g, 0, 0, Done));
    assert In(Inner(k, 0), g, 0, 0, Done).(ns := Nil) == In(Nil, g, 0, 0, Done);
  }
}
