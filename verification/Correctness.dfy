/** match() refines ordered choice: step by step along the compiled items. */
module Correctness {
  import opened Bytes
  import opened Code
  import opened Layout
  import opened Semantics
  import opened Machine
  import opened Shape
  import opened Repeats
  import opened Simulation

  // ---------- outcomes ----------

  lemma SameRefl(md: Md, open: set<nat>, v: seq<int>)
    requires |v| == md.offsetEnd
    ensures Same(md, open, v, v)
  {
  }

  /** A failed first choice leaves the second to decide. */
  lemma GoalFirst(md: Md, open: set<nat>, vec: seq<int>, o: Out, a: seq<Res>, b: seq<Res>)
    requires Goal(md, open, vec, o, a)
    ensures o.rc != NOMATCH ==> Goal(md, open, vec, o, a + b)
    ensures o.rc == NOMATCH ==> a + b == b && Same(md, open, vec, o.st.vec)
  {
    if a != [] { assert (a + b)[0] == a[0]; }
  }

  lemma GoalSecond(md: Md, open: set<nat>, vec: seq<int>, vec': seq<int>, o: Out, b: seq<Res>)
    requires Same(md, open, vec, vec') && Goal(md, open, vec', o, b)
    ensures Goal(md, open, vec, o, b)
  {
  }

  // ---------- result lists ----------

  lemma AtAllCons(r: Res, p: nat, ps: seq<nat>)
    ensures AtAll(r, [p] + ps) == [r.(pos := p)] + AtAll(r, ps)
  {
  }

  /** Split the first result off a list of positions. */
  lemma SplitFirst(c: Ctx, ms: nat, k: Cont, r: Res, p: nat, ps: seq<nat>)
    requires Lo(k) <= p <= |c.s| && Good(c, Lo(k), AtAll(r, ps))
    ensures Good(c, Lo(k), AtAll(r, [p] + ps)) && Good(c, Lo(k), [r.(pos := p)])
    ensures Outs(c, ms, k, AtAll(r, [p] + ps)) ==
            Outs(c, ms, k, [r.(pos := p)]) + Outs(c, ms, k, AtAll(r, ps))
    ensures Prog(c, k, AtAll(r, [p] + ps)) ==> Prog(c, k, [r.(pos := p)]) && Prog(c, k, AtAll(r, ps))
  {
    AtAllCons(r, p, ps);
    OutsAppend(c, ms, k, [r.(pos := p)], AtAll(r, ps));
    if Prog(c, k, AtAll(r, [p] + ps)) { ProgAppend(c, k, [r.(pos := p)], AtAll(r, ps)); }
  }

  // ---------- calls ----------

  ghost function Pushed(f: Frame, cbe: bool): Frame {
    if cbe then f.(chain := [f.eptr] + f.chain) else f
  }

  lemma SimCall(md: Md, st: State, f: Frame, cbe: bool, k: Cont, r: Res)
    requires Ready(md, st, Pushed(f, cbe), k, r)
    ensures Goal(md, OpenCaps(k), st.vec, Call(md, st, f, cbe), Outs(md.c, md.mstart, k, [r]))
    decreases md.limit - st.count, 0, 0
  {
    hide Run, Outs, Prog, KAt, KOk, Agree, Matched, Same;
    if st.count < md.limit && f.rdepth < md.rlimit {
      SimRun(md, st.(count := st.count + 1), Pushed(f, cbe), k, r);
    }
  }

  lemma SimDeeper(md: Md, st: State, f: Frame, cbe: bool, k: Cont, r: Res)
    requires Ready(md, st, Pushed(f, cbe), k, r)
    ensures Goal(md, OpenCaps(k), st.vec, Deeper(md, st, f, cbe), Outs(md.c, md.mstart, k, [r]))
    decreases md.limit - st.count, 0, 1
  {
    hide Run, Call, Outs, Prog, KAt, KOk, Agree, ChainOk, Matched, Same, Goal;
    SimCall(md, st, f.(rdepth := f.rdepth + 1), cbe, k, r);
  }

  // ---------- the opcode loop ----------

  lemma SimRun(md: Md, st: State, f: Frame, k: Cont, r: Res)
    requires Ready(md, st, f, k, r)
    ensures Goal(md, OpenCaps(k), st.vec, Run(md, st, f), Outs(md.c, md.mstart, k, [r]))
    decreases md.limit - st.count, 1, |md.code| - f.pc, 9
  {
    hide Run, Outs, Prog, KAt, KOk, Agree, ChainOk, Matched, Same, Goal;
    if k.Done? {
      SimEnd(md, st, f, r);
    } else if k.ns.Cons? {
      SimNode(md, st, f, k, r);
    } else if f.pc == k.gpc + Span(k.g) {
      SimKet(md, st, f, k, r);
    } else {
      BranchEnd(md, st, f, k);
      SimRun(md, st, f.(pc := k.gpc + Span(k.g)), k, r);
    }
  }

  /** At the end of a branch that is not the last, the next ALT leads to the ket. */
  lemma BranchEnd(md: Md, st: State, f: Frame, k: Cont)
    requires Wf(md, st, f) && KAt(md.code, f.pc, k) && k.In? && k.ns.Nil? && f.pc != k.gpc + Span(k.g)
    ensures f.pc < k.gpc + Span(k.g) && f.pc < |md.code|
    ensures KAt(md.code, k.gpc + Span(k.g), k)
    ensures Run(md, st, f) == Run(md, st, f.(pc := k.gpc + Span(k.g)))
  {
    hide Deeper, RunRepeat, RunBra, RunKet, DecodeRepeat, EncGroup, EncAlts;
  }

  lemma SimEnd(md: Md, st: State, f: Frame, r: Res)
    requires Ready(md, st, f, Done, r)
    ensures Goal(md, OpenCaps(Done), st.vec, Run(md, st, f), Outs(md.c, md.mstart, Done, [r]))
  {
    assert [r][1..] == [];
    assert Filter(md.c, md.mstart, [r]) == if md.c.notempty && r.pos == md.mstart then [] else [r];
    SameRefl(md, {}, st.vec);
    assert st.vec[..md.OffsetMax()] == r.vec;
  }

  /** The byte after an item never looks like a repeat of a class. */
  lemma NextByte(md: Md, pc: nat, k: Cont)
    requires MdOk(md) && KAt(md.code, pc, k) && k.In? && ValidNodes(k.ns, md.c.nocase)
    ensures !IsClassRepeatOp(At(md.code, pc))
  {
    GroupAt(md.code, k.gpc, k.g);
    if k.ns.Cons? {
      KAtStep(md.code, pc, k);
      FirstByte(k.ns.n, md.c.nocase);
    }
  }

  lemma FirstByte(n: Node, nocase: bool)
    requires ValidNode(n, nocase)
    ensures !IsClassRepeatOp(EncNode(n)[0])
  {
    if n.Grp? && n.z.NoPrefix? { assert EncNode(n)[0] == EncGroup(n.g)[0] == EncHead(n.g)[0]; }
  }

  /** The static part of the invariant, for the items after the first. */
  lemma StaticStep(md: Md, st: State, f: Frame, k: Cont, r: Res)
    requires Static(md, st, f, k, r, false) && k.In? && k.ns.Cons?
    ensures Static(md, st, f, k.(ns := k.ns.rest), r, !HollowNode(k.ns.n))
  {
    hide HollowNode, GroupOk, ValidNode, OkGroup, CapsGroup, CalmGroup;
    assert Hollow(k.ns) == (HollowNode(k.ns.n) && Hollow(k.ns.rest));
  }

  /** What the invariant says of the first item. */
  lemma NodeOk(c: Ctx, k: Cont)
    requires KOk(c, k) && k.In? && k.ns.Cons?
    ensures ValidNode(k.ns.n, c.nocase) && ValidNodes(k.ns.rest, c.nocase)
    ensures k.ns.n.Grp? ==> GroupOk(c, k.ns.n.g, k.(ns := k.ns.rest))
  {
  }

  lemma SimNode(md: Md, st: State, f: Frame, k: Cont, r: Res)
    requires Ready(md, st, f, k, r) && k.In? && k.ns.Cons?
    ensures Goal(md, OpenCaps(k), st.vec, Run(md, st, f), Outs(md.c, md.mstart, k, [r]))
    decreases md.limit - st.count, 1, |md.code| - f.pc, 8
  {
    hide Run, Outs, Prog, KAt, KOk, Agree, ChainOk, AllNode, DecodeRepeat, ItemRuns, KindRuns, Matched, Same, Goal, GroupOk, Has, EncGroup, ValidSingle, AtAll, IsRepeatOp;
    var n, k2 := k.ns.n, k.(ns := k.ns.rest);
    NodeOk(md.c, k);
    KAtStep(md.code, f.pc, k);
    OutsStep(md.c, md.mstart, k, r);
    StaticStep(md, st, f, k, r);
    match n
    case Zero(op) =>
      SimZero(md, st, f, op, k2, r);
    case One(x) =>
      NextByte(md, f.pc + |EncOne(x)|, k2);
      DecodeOne(md, f.pc, x);
      OneRuns(md.c, x, r, f.pc + |EncOne(x)|);
      SimRepeat(md, st, f, k2, r, Repeat(x, 1, 1, false, false, f.pc + |EncOne(x)|));
    case Rep(x, kd) =>
      DecodeRep(md, f.pc, x, kd);
      RepRuns(md.c, x, kd, r, f.pc + |EncRep(x, kd)|);
      SimRepeat(md, st, f, k2, r, Repeat(x, kd.Min(), kd.Max(), kd.M() == Lazy, kd.M() == Possessive, f.pc + |EncRep(x, kd)|));
    case Grp(z, g) =>
      SimPrefixed(md, st, f, z, g, k2, r);
  }

  lemma RunZero(md: Md, st: State, f: Frame, op: Byte)
    requires Wf(md, st, f) && At(md.code, f.pc) == op && op in {OP_SOD, OP_EODN, OP_EOD, OP_CIRC, OP_DOLL}
    ensures Run(md, st, f) == if ZeroOk(md.c, op, f.eptr) then Run(md, st, f.(pc := f.pc + 1)) else Out(NOMATCH, st)
    ensures f.pc < |md.code|
  {
    hide Call, Deeper, RunRepeat, RunBra, RunKet, DecodeRepeat, SkipAlts, ZeroOk;
  }

  lemma SimZero(md: Md, st: State, f: Frame, op: Byte, k2: Cont, r: Res)
    requires Static(md, st, f, k2, r, false) && f.eptr == r.pos && KAt(md.code, f.pc + 1, k2)
    requires At(md.code, f.pc) == op && ValidNode(Zero(op), md.c.nocase)
    requires Prog(md.c, k2, AllNode(md.c, Zero(op), r))
    ensures Goal(md, OpenCaps(k2), st.vec, Run(md, st, f), Outs(md.c, md.mstart, k2, AllNode(md.c, Zero(op), r)))
    decreases md.limit - st.count, 1, |md.code| - f.pc, 7
  {
    hide Run, Outs, Prog, KAt, KOk, Agree, ChainOk, Matched, Same, ZeroOk, Goal;
    RunZero(md, st, f, op);
    if ZeroOk(md.c, op, r.pos) {
      SimRun(md, st, f.(pc := f.pc + 1), k2, r);
    } else {
      OutsEmpty(md.c, md.mstart, k2);
      SameRefl(md, OpenCaps(k2), st.vec);
      GoalNone(md, OpenCaps(k2), st.vec, st.vec, Out(NOMATCH, st));
    }
  }

  lemma OutsEmpty(c: Ctx, ms: nat, k: Cont)
    requires Lo(k) <= |c.s|
    ensures Outs(c, ms, k, []) == []
  {
    var none: seq<Res> := [];
    OutsAppend(c, ms, k, none, none);
    assert none + none == none;
    assert |Outs(c, ms, k, none)| == 2 * |Outs(c, ms, k, none)|;
  }

  // ---------- repeated single items ----------

  function ItemRuns(c: Ctx, d: Repeat, pos: nat): (out: seq<nat>)
    requires pos <= |c.s|
    ensures forall i :: 0 <= i < |out| ==> pos <= out[i] <= |c.s|
  {
    var l := Runs(c, d.x, d.min, d.max, d.lazy, pos);
    if d.poss && l != [] then [l[0]] else l
  }

  lemma OneRuns(c: Ctx, x: Single, r: Res, next: nat)
    requires r.pos <= |c.s|
    ensures AllNode(c, One(x), r) == AtAll(r, ItemRuns(c, Repeat(x, 1, 1, false, false, next), r.pos))
  {
    if r.pos < |c.s| { RunsNone(c, x, false, r.pos + 1); }
    hide Accepts;
  }

  lemma RepRuns(c: Ctx, x: Single, k: Kind, r: Res, next: nat)
    requires r.pos <= |c.s|
    ensures AllNode(c, Rep(x, k), r) ==
      AtAll(r, ItemRuns(c, Repeat(x, k.Min(), k.Max(), k.M() == Lazy, k.M() == Possessive, next), r.pos))
  {
  }

  lemma RunIsRepeat(md: Md, st: State, f: Frame, d: Repeat)
    requires Wf(md, st, f) && IsRepeatOp(At(md.code, f.pc)) && DecodeRepeat(md, f.pc) == d
    ensures f.pc < |md.code| && f.pc < d.next && Run(md, st, f) == RunRepeat(md, st, f, d)
  {
    hide Call, Deeper, RunRepeat, RunBra, RunKet, SkipAlts;
  }

  /** The ways on after the minimum has been taken. */
  function Taken(c: Ctx, d: Repeat, pos: nat): (out: seq<nat>)
    requires pos <= |c.s|
    ensures forall i :: 0 <= i < |out| ==> pos <= out[i] <= |c.s|
  {
    var l := Runs(c, d.x, 0, if d.max < 0 then d.max else d.max - d.min, d.lazy, pos);
    if d.poss && l != [] then [l[0]] else l
  }

  lemma SimRepeat(md: Md, st: State, f: Frame, k2: Cont, r: Res, d: Repeat)
    requires Static(md, st, f, k2, r, d.min > 0) && f.eptr == r.pos && f.pc < |md.code| && f.pc < d.next
    requires IsRepeatOp(At(md.code, f.pc)) && DecodeRepeat(md, f.pc) == d && KAt(md.code, d.next, k2)
    requires (d.max < 0 || d.min <= d.max) && (d.lazy ==> !d.poss)
    requires Good(md.c, Lo(k2), AtAll(r, ItemRuns(md.c, d, r.pos)))
    requires Prog(md.c, k2, AtAll(r, ItemRuns(md.c, d, r.pos)))
    ensures Goal(md, OpenCaps(k2), st.vec, Run(md, st, f), Outs(md.c, md.mstart, k2, AtAll(r, ItemRuns(md.c, d, r.pos))))
    decreases md.limit - st.count, 1, |md.code| - f.pc, 7
  {
    hide Call, Deeper, Outs, Prog, KAt, KOk, Agree, ChainOk, DecodeRepeat, Runs, WalkBack, Lazily, Longest, MinOk, Same, Goal, AtAll;
    RunsMin(md.c, d.x, d.min, d.max, d.lazy, r.pos);
    RunIsRepeat(md, st, f, d);
    hide Run;
    if MinOk(md.c, d.x, r.pos, d.min) {
      assert ItemRuns(md.c, d, r.pos) == Taken(md.c, d, r.pos + d.min);
      hide ItemRuns, Taken;
      MinEnds(md.c, d.x, r.pos, d.min);
      StaticUp(md, st, f, k2, r, d.min > 0, r.pos + d.min, false);
      SimTaken(md, st, f, k2, r, d, r.pos + d.min);
    } else {
      assert AtAll(r, []) == [];
      OutsEmpty(md.c, md.mstart, k2);
      SameRefl(md, OpenCaps(k2), st.vec);
      GoalNone(md, OpenCaps(k2), st.vec, st.vec, Out(NOMATCH, st));
    }
  }

  lemma SimTaken(md: Md, st: State, f: Frame, k2: Cont, r: Res, d: Repeat, first: nat)
    requires Wf(md, st, f) && Static(md, st, f.(eptr := first), k2, r, false) && f.pc < |md.code| && f.pc < d.next && KAt(md.code, d.next, k2)
    requires (d.max < 0 || d.min <= d.max) && (d.lazy ==> !d.poss)
    requires MinOk(md.c, d.x, f.eptr, d.min) && first == f.eptr + d.min && Lo(k2) <= first <= |md.c.s|
    requires var out := AtAll(r, Taken(md.c, d, first)); Good(md.c, Lo(k2), out) && Prog(md.c, k2, out)
    ensures Goal(md, OpenCaps(k2), st.vec, RunRepeat(md, st, f, d), Outs(md.c, md.mstart, k2, AtAll(r, Taken(md.c, d, first))))
    decreases md.limit - st.count, 1, |md.code| - f.pc, 6
  {
    hide Run, Call, Deeper, Outs, Prog, KAt, KOk, Agree, ChainOk, Runs, WalkBack, Lazily, Longest, MinOk, Same, Goal, AtAll;
    var m, g := if d.max < 0 then -1 else d.max - d.min, f.(eptr := first, pc := d.next);
    RunTaken(md, st, f, d, first);
    hide RunRepeat;
    if d.max < 0 { RunsMinus(md.c, d.x, d.max, -1, first); }
    if d.min == d.max {
      RunsNone(md.c, d.x, d.lazy, first);
      assert Taken(md.c, d, first) == [first];
      hide Taken;
      SimAt(md, st, g, k2, r, first, [first]);
    } else if d.lazy {
      assert Taken(md.c, d, first) == Runs(md.c, d.x, 0, m, true, first);
      hide Taken;
      SimLazily(md, st, g, k2, r, d, d.min);
    } else {
      RunsDown(md.c, d.x, m, first);
      var last := Longest(md.c, d.x, first, m);
      assert Taken(md.c, d, first) == if d.poss then [last] else Down(last, first);
      hide Taken, Down;
      if d.poss {
        StaticUp(md, st, g, k2, r, false, last, false);
        SimAt(md, st, g.(eptr := last), k2, r, last, [last]);
      } else {
        SimWalk(md, st, g.(eptr := last), k2, r, first);
      }
    }
  }

  lemma MinEnds(c: Ctx, x: Single, p: nat, n: nat)
    requires MinOk(c, x, p, n) && p <= |c.s|
    ensures p + n <= |c.s|
  {
  }

  lemma RunTaken(md: Md, st: State, f: Frame, d: Repeat, first: nat)
    requires Wf(md, st, f) && f.pc < |md.code| && f.pc < d.next && (d.max < 0 || d.min <= d.max)
    requires MinOk(md.c, d.x, f.eptr, d.min) && first == f.eptr + d.min && first <= |md.c.s|
    ensures var m, g := if d.max < 0 then -1 else d.max - d.min, f.(eptr := first, pc := d.next);
      var last := Longest(md.c, d.x, first, m);
      RunRepeat(md, st, f, d) ==
        if d.min == d.max then Run(md, st, g)
        else if d.lazy then Lazily(md, st, g, d, d.min)
        else if d.poss then Run(md, st, g.(eptr := last))
        else WalkBack(md, st, g.(eptr := last), first)
  {
    hide Run, Lazily, WalkBack, Longest, MinOk;
  }

  lemma RunsNone(c: Ctx, x: Single, lazy: bool, pos: nat)
    requires pos <= |c.s|
    ensures Runs(c, x, 0, 0, lazy, pos) == [pos]
  {
  }

  /** Negative maxima all mean "no limit". */
  lemma {:induction false} RunsMinus(c: Ctx, x: Single, m: int, m': int, pos: nat)
    requires pos <= |c.s| && m < 0 && m' < 0
    ensures forall lazy :: Runs(c, x, 0, m, lazy, pos) == Runs(c, x, 0, m', lazy, pos)
    decreases |c.s| - pos
  {
    if AcceptsAt(c, x, pos) { RunsMinus(c, x, m, m', pos + 1); }
  }

  /** Going on at the one position p. */
  lemma SimAt(md: Md, st: State, f: Frame, k2: Cont, r: Res, p: nat, ps: seq<nat>)
    requires ps == [p] && f.eptr == p && Static(md, st, f, k2, r, false) && KAt(md.code, f.pc, k2)
    requires Prog(md.c, k2, AtAll(r, ps))
    ensures Goal(md, OpenCaps(k2), st.vec, Run(md, st, f), Outs(md.c, md.mstart, k2, AtAll(r, ps)))
    decreases md.limit - st.count, 1, |md.code| - f.pc, 10
  {
    assert AtAll(r, ps) == [r.(pos := p)];
    SimRun(md, st, f, k2, r.(pos := p));
  }

  lemma GoalNone(md: Md, open: set<nat>, vec: seq<int>, vec': seq<int>, o: Out)
    requires Same(md, open, vec, vec') && o.rc == NOMATCH && o.st.vec == vec'
    ensures Goal(md, open, vec, o, [])
  {
  }

  lemma WalkStep(md: Md, st: State, f: Frame, pp: nat)
    requires Wf(md, st, f) && pp <= f.eptr
    ensures var o := Deeper(md, st, f, false);
      WalkBack(md, st, f, pp) ==
        if o.rc != NOMATCH then o
        else if f.eptr == pp then Out(NOMATCH, o.st) else WalkBack(md, o.st, f.(eptr := f.eptr - 1), pp)
  {
    hide Deeper;
  }

  lemma SimWalk(md: Md, st: State, f: Frame, k2: Cont, r: Res, pp: nat)
    requires Static(md, st, f.(eptr := pp), k2, r, false) && f.eptr <= |md.c.s| && KAt(md.code, f.pc, k2) && Lo(k2) <= pp
    requires Good(md.c, Lo(k2), AtAll(r, Down(f.eptr, pp))) && Prog(md.c, k2, AtAll(r, Down(f.eptr, pp)))
    requires pp <= f.eptr
    ensures Goal(md, OpenCaps(k2), st.vec, WalkBack(md, st, f, pp), Outs(md.c, md.mstart, k2, AtAll(r, Down(f.eptr, pp))))
    decreases md.limit - st.count, 1, |md.code| - f.pc, 10, f.eptr
  {
    hide Run, Call, Deeper, Outs, Prog, KAt, KOk, Agree, Same, ChainOk, Goal, WalkBack, Matched, AtAll, Has, EncNodes, EncGroup;
    WalkStep(md, st, f, pp);
    var e, rest := f.eptr, Down(f.eptr - 1, pp);
    StaticUp(md, st, f.(eptr := pp), k2, r, false, e, false);
    assert f.(eptr := pp).(eptr := e) == f;
    SplitFirst(md.c, md.mstart, k2, r, e, rest);
    SimDeeper(md, st, f, false, k2, r.(pos := e));
    var o := Deeper(md, st, f, false);
    var a, b := Outs(md.c, md.mstart, k2, [r.(pos := e)]), Outs(md.c, md.mstart, k2, AtAll(r, rest));
    GoalFirst(md, OpenCaps(k2), st.vec, o, a, b);
    if o.rc == NOMATCH {
      if e == pp {
        assert AtAll(r, rest) == [];
        OutsEmpty(md.c, md.mstart, k2);
        GoalNone(md, OpenCaps(k2), st.vec, o.st.vec, WalkBack(md, st, f, pp));
      } else {
        AgreeSame(md, k2, st.vec, o.st.vec, r.vec);
        SimWalk(md, o.st, f.(eptr := e - 1), k2, r, pp);
        GoalSecond(md, OpenCaps(k2), st.vec, o.st.vec, WalkBack(md, o.st, f.(eptr := e - 1), pp), b);
      }
    }
  }

  lemma LazyRuns(c: Ctx, x: Single, m: int, e: nat)
    requires e <= |c.s|
    ensures Runs(c, x, 0, m, true, e) ==
      [e] + if m != 0 && AcceptsAt(c, x, e) then Runs(c, x, 0, if m < 0 then m else m - 1, true, e + 1) else []
  {
  }

  lemma LazyStep(md: Md, st: State, f: Frame, d: Repeat, fi: nat)
    requires Wf(md, st, f)
    ensures var o := Deeper(md, st, f, false);
      Lazily(md, st, f, d, fi) ==
        if o.rc != NOMATCH then o
        else if (d.max >= 0 && fi >= d.max) || !AcceptsAt(md.c, d.x, f.eptr) then Out(NOMATCH, o.st)
        else Lazily(md, o.st, f.(eptr := f.eptr + 1), d, fi + 1)
  {
    hide Deeper;
  }

  lemma SimLazily(md: Md, st: State, f: Frame, k2: Cont, r: Res, d: Repeat, fi: nat)
    requires Static(md, st, f, k2, r, false) && KAt(md.code, f.pc, k2)
    requires d.max < 0 || fi <= d.max
    requires var ps := Runs(md.c, d.x, 0, if d.max < 0 then -1 else d.max - fi, true, f.eptr);
      Good(md.c, Lo(k2), AtAll(r, ps)) && Prog(md.c, k2, AtAll(r, ps))
    ensures var ps := Runs(md.c, d.x, 0, if d.max < 0 then -1 else d.max - fi, true, f.eptr);
      Goal(md, OpenCaps(k2), st.vec, Lazily(md, st, f, d, fi), Outs(md.c, md.mstart, k2, AtAll(r, ps)))
    decreases md.limit - st.count, 1, |md.code| - f.pc, 10, |md.c.s| - f.eptr
  {
    hide Run, Call, Deeper, Outs, Prog, KAt, KOk, Agree, Same, ChainOk, Matched, Goal, Accepts, Runs, Lazily, AtAll;
    LazyRuns(md.c, d.x, if d.max < 0 then -1 else d.max - fi, f.eptr);
    LazyStep(md, st, f, d, fi);
    var e, m := f.eptr, if d.max < 0 then -1 else d.max - fi;
    var more := m != 0 && AcceptsAt(md.c, d.x, e);
    var rest := if more then Runs(md.c, d.x, 0, if m < 0 then m else m - 1, true, e + 1) else [];
    SplitFirst(md.c, md.mstart, k2, r, e, rest);
    SimDeeper(md, st, f, false, k2, r.(pos := e));
    var o := Deeper(md, st, f, false);
    var a, b := Outs(md.c, md.mstart, k2, [r.(pos := e)]), Outs(md.c, md.mstart, k2, AtAll(r, rest));
    GoalFirst(md, OpenCaps(k2), st.vec, o, a, b);
    if o.rc == NOMATCH {
      if more {
        AgreeSame(md, k2, st.vec, o.st.vec, r.vec);
        StaticUp(md, o.st, f, k2, r, false, e + 1, false);
        SimLazily(md, o.st, f.(eptr := e + 1), k2, r, d, fi + 1);
        GoalSecond(md, OpenCaps(k2), st.vec, o.st.vec, Lazily(md, o.st, f.(eptr := e + 1), d, fi + 1), b);
      } else {
        NoPositions(r);
        OutsEmpty(md.c, md.mstart, k2);
        GoalNone(md, OpenCaps(k2), st.vec, o.st.vec, Lazily(md, st, f, d, fi));
      }
    }
  }

  lemma NoPositions(r: Res)
    ensures AtAll(r, []) == []
  {
  }

  // ---------- brackets ----------

  /** Code positions of a branch whose opening item is at pc, in the bracket g at
      gpc, with the branches more after it. */
  predicate BranchAt(code: seq<Byte>, pc: nat, b: Nodes, more: Alts, g: Group, gpc: nat) {
    var h := pc + OpenLen(At(code, pc));
    var next := h + |EncNodes(b)|;
    gpc <= pc && Has(code, gpc, EncGroup(g)) &&
    Has(code, h, EncNodes(b)) && Get(code, pc + 1) == next - pc &&
    Has(code, next, EncAlts(more)) && next + |EncAlts(more)| == gpc + Span(g)
  }

  ghost predicate BranchOk(c: Ctx, b: Nodes, more: Alts, kb: Cont) {
    ValidNodes(b, c.nocase) && OkNodes(c, b) && ValidAlts(more, c.nocase) && OkAlts(c, more) &&
    Caps(b) !! OpenCaps(kb) && CapsAlts(more) !! OpenCaps(kb) &&
    kb.In? && Calm(b, !kb.g.s && Behind(kb.k)) && CalmAlts(more, !kb.g.s && Behind(kb.k)) &&
    (!HollowGroup(kb.g) ==> !Hollow(b) && !HollowAlts(more))
  }

  /** What the branches b and more of g give from r. */
  function Ways(c: Ctx, b: Nodes, more: Alts, r: Res): (out: seq<Res>)
    requires r.pos <= |c.s|
    ensures Good(c, r.pos, out)
  {
    AllNodes(c, b, r) + AllAlts(c, more, r)
  }

  ghost predicate BranchProg(c: Ctx, b: Nodes, more: Alts, g: Group, k2: Cont, r: Res)
    requires Lo(k2) <= r.pos <= |c.s|
  {
    var all := Ways(c, b, more, r);
    (g.ket != Ket && !g.s ==> Good(c, r.pos + 1, all)) && Prog(c, k2, AfterKet(c, g, r.pos, all))
  }

  ghost predicate BranchReady(md: Md, st: State, f: Frame, b: Nodes, more: Alts, g: Group, gpc: nat, k2: Cont, r: Res) {
    var kb := In(b, g, gpc, r.pos, k2);
    && MdOk(md) && Wf(md, st, f) && f.eptr == r.pos && f.top == r.top && f.pc < |md.code|
    && ChainOk(k2, f.eptr, f.chain, !HollowGroup(g)) && Lo(k2) <= r.pos
    && BranchAt(md.code, f.pc, b, more, g, gpc) && KAt(md.code, gpc + Span(g) + 3, k2)
    && GroupOk(md.c, g, k2) && KOk(md.c, k2) && BranchOk(md.c, b, more, kb)
    && Agree(md, kb, st.vec, r.vec) && BranchProg(md.c, b, more, g, k2, r)
  }

  function WaysOuts(md: Md, b: Nodes, more: Alts, g: Group, k2: Cont, r: Res): seq<Res>
    requires Lo(k2) <= r.pos <= |md.c.s|
  {
    Outs(md.c, md.mstart, k2, AfterKet(md.c, g, r.pos, Ways(md.c, b, more, r)))
  }

  function AltOuts(md: Md, more: Alts, g: Group, k2: Cont, r: Res): seq<Res>
    requires Lo(k2) <= r.pos <= |md.c.s|
  {
    Outs(md.c, md.mstart, k2, AfterKet(md.c, g, r.pos, AllAlts(md.c, more, r)))
  }

  /** The first branch alone, and the others. */
  lemma BranchOuts(md: Md, b: Nodes, more: Alts, g: Group, gpc: nat, k2: Cont, r: Res)
    requires Lo(k2) <= r.pos <= |md.c.s|
    ensures Good(md.c, r.pos, [r])
    ensures WaysOuts(md, b, more, g, k2, r) ==
      Outs(md.c, md.mstart, In(b, g, gpc, r.pos, k2), [r]) + AltOuts(md, more, g, k2, r)
    ensures BranchProg(md.c, b, more, g, k2, r) ==>
      Prog(md.c, In(b, g, gpc, r.pos, k2), [r]) && Prog(md.c, k2, AfterKet(md.c, g, r.pos, AllAlts(md.c, more, r)))
  {
    var c, x, y := md.c, AllNodes(md.c, b, r), AllAlts(md.c, more, r);
    assert [r][1..] == [];
    assert Each(c, b, r.pos, [r]) == x;
    AfterKetAppend(c, g, r.pos, x, y);
    var u, v := AfterKet(c, g, r.pos, x), AfterKet(c, g, r.pos, y);
    OutsAppend(c, md.mstart, k2, u, v);
    if BranchProg(c, b, more, g, k2, r) {
      ProgAppend(c, k2, u, v);
      if g.ket != Ket && !g.s { GoodParts(c, r.pos + 1, x, y); }
    }
  }

  lemma KAtIn(code: seq<Byte>, pc: nat, ns: Nodes, g: Group, gpc: nat, start: nat, k: Cont)
    requires Has(code, gpc, EncGroup(g)) && Has(code, pc, EncNodes(ns)) && KAt(code, gpc + Span(g) + 3, k)
    requires var end, ket := pc + |EncNodes(ns)|, gpc + Span(g);
      end == ket || (At(code, end) == OP_ALT && SkipAlts(code, end) == ket && end < ket)
    ensures KAt(code, pc, In(ns, g, gpc, start, k))
  {
    hide Has, EncGroup, EncNodes, SkipAlts;
  }

  /** After a branch comes the ket, or an ALT that leads to it. */
  lemma BranchSkip(md: Md, pc: nat, b: Nodes, more: Alts, g: Group, gpc: nat)
    requires MdOk(md) && BranchAt(md.code, pc, b, more, g, gpc)
    ensures var end, ket := pc + OpenLen(At(md.code, pc)) + |EncNodes(b)|, gpc + Span(g);
      end == ket || (At(md.code, end) == OP_ALT && SkipAlts(md.code, end) == ket && end < ket)
  {
    hide EncGroup, EncNodes, Has, Get, At, SkipAlts, Span;
    GroupAt(md.code, gpc, g);
    if more.Alt? {
      assert more == Alt(more.b, more.more);
      SkipAltsEnd(md.code, pc + OpenLen(At(md.code, pc)) + |EncNodes(b)|, more.b, more.more, gpc + Span(g));
    }
  }

  lemma BranchCode(md: Md, pc: nat, b: Nodes, more: Alts, g: Group, gpc: nat, start: nat, k2: Cont)
    requires MdOk(md) && BranchAt(md.code, pc, b, more, g, gpc) && KAt(md.code, gpc + Span(g) + 3, k2)
    ensures KAt(md.code, pc + OpenLen(At(md.code, pc)), In(b, g, gpc, start, k2))
  {
    hide EncGroup, EncNodes, Has, Get, KAt;
    var next := pc + OpenLen(At(md.code, pc)) + |EncNodes(b)|;
    BranchSkip(md, pc, b, more, g, gpc);
    hide EncAlts, SkipAlts;
    KAtIn(md.code, next - |EncNodes(b)|, b, g, gpc, start, k2);
  }

  lemma BranchKOk(c: Ctx, b: Nodes, more: Alts, g: Group, gpc: nat, start: nat, k2: Cont)
    requires GroupOk(c, g, k2) && KOk(c, k2) && Lo(k2) <= start <= |c.s|
    requires BranchOk(c, b, more, In(b, g, gpc, start, k2))
    ensures KOk(c, In(b, g, gpc, start, k2))
  {
  }

  lemma BranchChain(f: Frame, b: Nodes, g: Group, gpc: nat, k2: Cont)
    requires ChainOk(k2, f.eptr, f.chain, !HollowGroup(g)) && (!HollowGroup(g) ==> !Hollow(b))
    ensures ChainOk(In(b, g, gpc, f.eptr, k2), f.eptr, Pushed(f, g.s).chain, false)
  {
    hide Hollow, HollowGroup;
    ChainUp(k2, f.eptr, f.chain, !HollowGroup(g), f.eptr, !Hollow(b));
    if g.s { assert ([f.eptr] + f.chain)[1..] == f.chain; }
  }

  lemma BranchStart(md: Md, st: State, f: Frame, b: Nodes, more: Alts, g: Group, gpc: nat, k2: Cont, r: Res)
    requires BranchReady(md, st, f, b, more, g, gpc, k2, r)
    ensures Ready(md, st, Pushed(f.(pc := f.pc + OpenLen(At(md.code, f.pc))), g.s), In(b, g, gpc, r.pos, k2), r)
  {
    hide Outs, Prog, Agree, Ways, KAt, BranchAt, KOk, ChainOk, BranchProg, OkGroup, ValidGroup, CapsGroup, HollowGroup, Hollow, HollowAlts, Calm, CalmAlts;
    BranchOuts(md, b, more, g, gpc, k2, r);
    BranchCode(md, f.pc, b, more, g, gpc, r.pos, k2);
    BranchKOk(md.c, b, more, g, gpc, r.pos, k2);
    BranchChain(f, b, g, gpc, k2);
  }

  lemma NextCode(md: Md, pc: nat, b: Nodes, more: Alts, g: Group, gpc: nat)
    requires MdOk(md) && BranchAt(md.code, pc, b, more, g, gpc) && more.Alt?
    ensures var next := pc + Get(md.code, pc + 1);
      pc < next < |md.code| && At(md.code, next) == OP_ALT && BranchAt(md.code, next, more.b, more.more, g, gpc)
  {
    hide EncNodes, EncGroup, Has;
    var next := pc + Get(md.code, pc + 1);
    assert more == Alt(more.b, more.more);
    AltAt(md.code, next, more.b, more.more);
    AltLen(more.b, more.more);
    hide EncAlts;
  }

  lemma NextOk(c: Ctx, b: Nodes, more: Alts, g: Group, gpc: nat, start: nat, k2: Cont)
    requires BranchOk(c, b, more, In(b, g, gpc, start, k2)) && more.Alt?
    ensures BranchOk(c, more.b, more.more, In(more.b, g, gpc, start, k2))
  {
  }

  lemma NextProg(md: Md, b: Nodes, more: Alts, g: Group, k2: Cont, r: Res)
    requires Lo(k2) <= r.pos <= |md.c.s| && more.Alt? && BranchProg(md.c, b, more, g, k2, r)
    ensures BranchProg(md.c, more.b, more.more, g, k2, r)
    ensures AltOuts(md, more, g, k2, r) == WaysOuts(md, more.b, more.more, g, k2, r)
  {
    BranchOuts(md, b, more, g, 0, k2, r);
    hide Outs, Prog, AfterKet, AllNodes;
    assert AllAlts(md.c, more, r) == Ways(md.c, more.b, more.more, r);
    if g.ket != Ket && !g.s { GoodParts(md.c, r.pos + 1, AllNodes(md.c, b, r), AllAlts(md.c, more, r)); }
  }

  lemma BranchNext(md: Md, st: State, st': State, f: Frame, b: Nodes, more: Alts, g: Group, gpc: nat, k2: Cont, r: Res)
    requires BranchReady(md, st, f, b, more, g, gpc, k2, r) && more.Alt?
    requires Same(md, OpenCaps(In(b, g, gpc, r.pos, k2)), st.vec, st'.vec) && st'.count <= md.limit
    ensures var next := f.pc + Get(md.code, f.pc + 1);
      f.pc < next && At(md.code, next) == OP_ALT &&
      BranchReady(md, st', f.(pc := next), more.b, more.more, g, gpc, k2, r)
    ensures AltOuts(md, more, g, k2, r) == WaysOuts(md, more.b, more.more, g, k2, r)
  {
    hide Outs, Prog, KAt, KOk, GroupOk, ChainOk, BranchOk, BranchProg, BranchAt, AltOuts, WaysOuts;
    NextCode(md, f.pc, b, more, g, gpc);
    NextOk(md.c, b, more, g, gpc, r.pos, k2);
    NextProg(md, b, more, g, k2, r);
    AgreeSame(md, In(b, g, gpc, r.pos, k2), st.vec, st'.vec, r.vec);
  }

  lemma BranchLast(md: Md, st: State, f: Frame, b: Nodes, g: Group, gpc: nat, k2: Cont, r: Res)
    requires BranchReady(md, st, f, b, NoAlt, g, gpc, k2, r)
    ensures At(md.code, f.pc + Get(md.code, f.pc + 1)) != OP_ALT
    ensures AltOuts(md, NoAlt, g, k2, r) == []
  {
    hide Outs, Prog, AllNodes, Agree, EncNodes, EncGroup, KAt, KOk, Ways, BranchOk, BranchProg, Get, ChainOk;
    GroupAt(md.code, gpc, g);
    OutsEmpty(md.c, md.mstart, k2);
  }

  lemma SimCap(md: Md, st: State, f: Frame, b: Nodes, more: Alts, g: Group, gpc: nat, k2: Cont, r: Res)
    requires BranchReady(md, st, f, b, more, g, gpc, k2, r)
    ensures Goal(md, OpenCaps(In(b, g, gpc, r.pos, k2)), st.vec, CapAlts(md, st, f, g.s), WaysOuts(md, b, more, g, k2, r))
    decreases md.limit - st.count, 1, |md.code| - f.pc, 0
  {
    hide Run, Call, Deeper, Outs, Prog, Ready, BranchProg, BranchOk, BranchAt, KAt, KOk, Agree, Same, Goal, Ways, WaysOuts, AltOuts, Get;
    var kb, open := In(b, g, gpc, r.pos, k2), f.(pc := f.pc + OpenLen(At(md.code, f.pc)));
    var y := AltOuts(md, more, g, k2, r);
    BranchStart(md, st, f, b, more, g, gpc, k2, r);
    BranchOuts(md, b, more, g, gpc, k2, r);
    SimDeeper(md, st, open, g.s, kb, r);
    var o := Deeper(md, st, open, g.s);
    GoalFirst(md, OpenCaps(kb), st.vec, o, Outs(md.c, md.mstart, kb, [r]), y);
    if o.rc == NOMATCH {
      if more.NoAlt? {
        BranchLast(md, st, f, b, g, gpc, k2, r);
      } else {
        var f' := f.(pc := f.pc + Get(md.code, f.pc + 1));
        BranchNext(md, st, o.st, f, b, more, g, gpc, k2, r);
        SimCap(md, o.st, f', more.b, more.more, g, gpc, k2, r);
        GoalSecond(md, OpenCaps(kb), st.vec, o.st.vec, CapAlts(md, o.st, f', g.s), y);
      }
    }
  }

  lemma SimBra(md: Md, st: State, f: Frame, b: Nodes, more: Alts, g: Group, gpc: nat, k2: Cont, r: Res)
    requires BranchReady(md, st, f, b, more, g, gpc, k2, r)
    ensures Goal(md, OpenCaps(In(b, g, gpc, r.pos, k2)), st.vec, BraAlts(md, st, f, g.s), WaysOuts(md, b, more, g, k2, r))
    decreases md.limit - st.count, 1, |md.code| - f.pc, 0
  {
    hide Run, Call, Deeper, Outs, Prog, Ready, BranchProg, BranchOk, BranchAt, KAt, KOk, Agree, Same, Goal, Ways, WaysOuts, AltOuts, Get;
    var kb, open := In(b, g, gpc, r.pos, k2), f.(pc := f.pc + OpenLen(At(md.code, f.pc)));
    var y := AltOuts(md, more, g, k2, r);
    BranchStart(md, st, f, b, more, g, gpc, k2, r);
    BranchOuts(md, b, more, g, gpc, k2, r);
    if more.NoAlt? {
      BranchLast(md, st, f, b, g, gpc, k2, r);
      assert Outs(md.c, md.mstart, kb, [r]) + y == Outs(md.c, md.mstart, kb, [r]);
      if g.s { SimDeeper(md, st, open, g.s, kb, r); } else { SimCall(md, st, open, false, kb, r); }
    } else {
      var f' := f.(pc := f.pc + Get(md.code, f.pc + 1));
      SameRefl(md, OpenCaps(kb), st.vec);
      BranchNext(md, st, st, f, b, more, g, gpc, k2, r);
      SimDeeper(md, st, open, g.s, kb, r);
      var o := Deeper(md, st, open, g.s);
      GoalFirst(md, OpenCaps(kb), st.vec, o, Outs(md.c, md.mstart, kb, [r]), y);
      if o.rc == NOMATCH {
        BranchNext(md, st, o.st, f, b, more, g, gpc, k2, r);
        SimBra(md, o.st, f', more.b, more.more, g, gpc, k2, r);
        GoalSecond(md, OpenCaps(kb), st.vec, o.st.vec, BraAlts(md, o.st, f', g.s), y);
      }
    }
  }

  // ---------- entering a bracket ----------

  ghost predicate GroupReady(md: Md, st: State, f: Frame, g: Group, k2: Cont, r: Res) {
    Static(md, st, f, k2, r, !HollowGroup(g)) && f.eptr == r.pos && Has(md.code, f.pc, EncGroup(g)) &&
    KAt(md.code, f.pc + Span(g) + 3, k2) && GroupOk(md.c, g, k2) && Prog(md.c, k2, AllGroup(md.c, g, r))
  }

  predicate Room(md: Md, g: Group) { 0 < 2 * g.cap < md.OffsetMax() }

  function Started(md: Md, st: State, g: Group, pos: nat): State
    requires md.offsetEnd % 3 == 0 && |st.vec| == md.offsetEnd
  {
    if Room(md, g) then st.(vec := st.vec[md.offsetEnd - g.cap := pos]) else st
  }

  lemma WorkingOther(md: Md, k: Cont, v: seq<int>, n: nat, x: int)
    requires md.offsetEnd % 3 == 0 && |v| == md.offsetEnd && 0 < 2 * n < md.OffsetMax()
    requires n !in OpenCaps(k) && Working(md, k, v)
    ensures Working(md, k, v[md.offsetEnd - n := x])
  {
    if k.In? { WorkingOther(md, k.k, v, n, x); }
  }

  lemma AgreeStart(md: Md, st: State, g: Group, gpc: nat, k2: Cont, r: Res)
    requires Agree(md, k2, st.vec, r.vec) && CapsGroup(g) !! OpenCaps(k2)
    ensures Agree(md, In(g.b, g, gpc, r.pos, k2), Started(md, st, g, r.pos).vec, r.vec)
  {
    if Room(md, g) {
      assert g.cap in CapsGroup(g);
      WorkingOther(md, k2, st.vec, g.cap, r.pos);
    }
  }

  lemma GroupCode(md: Md, pc: nat, g: Group)
    requires MdOk(md) && Has(md.code, pc, EncGroup(g))
    ensures pc < |md.code| && BranchAt(md.code, pc, g.b, g.more, g, pc)
  {
    GroupAt(md.code, pc, g);
    hide EncGroup, EncNodes, EncAlts, Has;
  }

  lemma GroupProg(c: Ctx, g: Group, k2: Cont, r: Res)
    requires OkGroup(c, g) && Lo(k2) <= r.pos <= |c.s| && Prog(c, k2, AllGroup(c, g, r))
    ensures BranchProg(c, g.b, g.more, g, k2, r)
  {
    hide Prog, AllNodes, AllAlts, AfterKet, OkNodes, OkAlts;
    assert AllGroup(c, g, r) == AfterKet(c, g, r.pos, Ways(c, g.b, g.more, r));
    if g.ket != Ket && !g.s {
      assert NonEmpty(c, g);
      GoodJoin(c, r.pos + 1, AllNodes(c, g.b, r), AllAlts(c, g.more, r));
    }
  }

  lemma GroupOkBranch(c: Ctx, g: Group, gpc: nat, start: nat, k2: Cont)
    requires GroupOk(c, g, k2)
    ensures BranchOk(c, g.b, g.more, In(g.b, g, gpc, start, k2))
  {
    hide NonEmpty;
  }

  lemma GroupBranch(md: Md, st: State, f: Frame, g: Group, k2: Cont, r: Res)
    requires GroupReady(md, st, f, g, k2, r)
    ensures BranchReady(md, Started(md, st, g, r.pos), f, g.b, g.more, g, f.pc, k2, r)
  {
    hide BranchAt, BranchOk, BranchProg, Agree, Prog, KAt, KOk, ChainOk, Has, EncGroup, AllGroup, OkGroup, ValidGroup, CalmGroup, CapsGroup, HollowGroup;
    GroupCode(md, f.pc, g);
    GroupOkBranch(md.c, g, f.pc, r.pos, k2);
    GroupProg(md.c, g, k2, r);
    AgreeStart(md, st, g, f.pc, k2, r);
  }

  lemma GoodJoin(c: Ctx, lo: nat, a: seq<Res>, b: seq<Res>)
    requires Good(c, lo, a) && Good(c, lo, b)
    ensures Good(c, lo, a + b)
  {
  }

  lemma RunIsBra(md: Md, st: State, f: Frame, g: Group)
    requires MdOk(md) && Wf(md, st, f) && Has(md.code, f.pc, EncGroup(g)) && g.cap < 0x1_0000
    ensures Run(md, st, f) ==
      if Room(md, g) then
        var o := CapAlts(md, Started(md, st, g, f.eptr), f, g.s);
        if o.rc != NOMATCH then o else Out(NOMATCH, o.st.(vec := Restore(o.st.vec, st.vec, g.cap, md.offsetEnd)))
      else BraAlts(md, st, f, g.s)
  {
    hide Run, EncGroup, Call, Deeper, CapAlts, BraAlts, Restore, Has, Get, At, EncNodes, EncAlts, Span;
    GroupAt(md.code, f.pc, g);
    RunAtBra(md, st, f);
    AtIs(md.code, f.pc);
  }

  lemma AtIs(code: seq<Byte>, pc: nat)
    ensures pc < |code| ==> At(code, pc) == code[pc]
  {
  }

  lemma SimGroup(md: Md, st: State, f: Frame, g: Group, k2: Cont, r: Res)
    requires GroupReady(md, st, f, g, k2, r)
    ensures Goal(md, OpenCaps(k2), st.vec, Run(md, st, f), Outs(md.c, md.mstart, k2, AllGroup(md.c, g, r)))
    decreases md.limit - st.count, 1, |md.code| - f.pc, 6
  {
    hide Call, Deeper, CapAlts, BraAlts, Outs, Prog, KAt, KOk, Agree, ChainOk, EncGroup, Restore, BranchReady, Same;
    var kb, st1 := In(g.b, g, f.pc, r.pos, k2), Started(md, st, g, r.pos);
    GroupAt(md.code, f.pc, g);
    GroupBranch(md, st, f, g, k2, r);
    assert AllGroup(md.c, g, r) == AfterKet(md.c, g, r.pos, Ways(md.c, g.b, g.more, r));
    RunIsBra(md, st, f, g);
    hide Run, RunBra, AfterKet, AllGroup, Ways;
    if Room(md, g) {
      SimCap(md, st1, f, g.b, g.more, g, f.pc, k2, r);
      RestoreOk(md, st, g, f.pc, k2, r, CapAlts(md, st1, f, g.s));
    } else {
      SimBra(md, st1, f, g.b, g.more, g, f.pc, k2, r);
      var o := BraAlts(md, st1, f, g.s);
      if o.rc == NOMATCH && Same(md, OpenCaps(kb), st.vec, o.st.vec) {
        NoRoom(md, g, f.pc, r.pos, k2, st.vec, o.st.vec);
      }
    }
  }

  /** A capture for which the vector has no room opens no slot. */
  lemma NoRoom(md: Md, g: Group, gpc: nat, start: nat, k2: Cont, v: seq<int>, w: seq<int>)
    requires !Room(md, g) && Same(md, OpenCaps(In(g.b, g, gpc, start, k2)), v, w)
    ensures Same(md, OpenCaps(k2), v, w)
  {
  }

  /** A capturing bracket that fails leaves its three slots as they were. */
  lemma RestoreOk(md: Md, st: State, g: Group, gpc: nat, k2: Cont, r: Res, o: Out)
    requires MdOk(md) && |st.vec| == md.offsetEnd && Room(md, g) && g.cap !in OpenCaps(k2)
    requires o.rc == NOMATCH ==> Same(md, OpenCaps(In(g.b, g, gpc, r.pos, k2)), Started(md, st, g, r.pos).vec, o.st.vec)
    ensures o.rc == NOMATCH ==> Same(md, OpenCaps(k2), st.vec, Restore(o.st.vec, st.vec, g.cap, md.offsetEnd))
  {
  }

  lemma SimGroupCall(md: Md, st: State, f: Frame, cbe: bool, g: Group, k2: Cont, r: Res)
    requires GroupReady(md, st, f, g, k2, r) && (cbe ==> Behind(k2))
    ensures Goal(md, OpenCaps(k2), st.vec, Call(md, st, f, cbe), Outs(md.c, md.mstart, k2, AllGroup(md.c, g, r)))
    decreases md.limit - st.count, 0, 0
  {
    hide Run, Outs, Prog, KAt, KOk, Agree, OkGroup, Matched, Same;
    if st.count < md.limit && f.rdepth < md.rlimit {
      if cbe { ChainPush(k2, f.eptr, f.eptr, f.chain, !HollowGroup(g)); }
      SimGroup(md, st.(count := st.count + 1), Pushed(f, cbe), g, k2, r);
    }
  }

  /** What a prefixed bracket does: where it enters the group, and where it goes on. */
  lemma RunPrefix(md: Md, st: State, f: Frame, z: Prefix, g: Group)
    requires MdOk(md) && Wf(md, st, f) && Has(md.code, f.pc, EncNode(Grp(z, g))) && !z.NoPrefix?
    ensures Has(md.code, f.pc + 1, EncGroup(g)) && f.pc < |md.code|
    ensures var inside, after := f.(pc := f.pc + 1), f.(pc := f.pc + 1 + Span(g) + 3);
      var first := if z.BraZero? then inside else after;
      var o := Deeper(md, st, first, false);
      Run(md, st, f) ==
        if z.SkipZero? then Run(md, st, after)
        else if o.rc != NOMATCH then o
        else Run(md, o.st, if z.BraZero? then after else inside)
  {
    hide Run, Call, Has, EncGroup, EncNode, Deeper, SkipAlts, Span, At;
    PrefixAt(md.code, f.pc, z, g);
    PrefixOp(z, At(md.code, f.pc));
    RunAtZero(md, st, f);
  }

  lemma PrefixOp(z: Prefix, op: Byte)
    requires EncPrefix(z) == [op]
    ensures op == match z case BraZero => OP_BRAZERO case BraMinZero => OP_BRAMINZERO case SkipZero => OP_SKIPZERO case NoPrefix => op
  {
  }

  lemma PrefixAt(code: seq<Byte>, pc: nat, z: Prefix, g: Group)
    requires Has(code, pc, EncNode(Grp(z, g))) && !z.NoPrefix? && |code| <= MAX_PATTERN_SIZE
    ensures EncPrefix(z) == [At(code, pc)] && Has(code, pc + 1, EncGroup(g)) && SkipAlts(code, pc + 1) == pc + 1 + Span(g)
  {
    assert EncNode(Grp(z, g)) == EncPrefix(z) + EncGroup(g);
    hide Has, EncGroup, EncNode, SkipAlts, Span;
    HasSplit(code, pc, EncPrefix(z), EncGroup(g));
    HasAt(code, pc, EncPrefix(z), 0);
    SkipGroup(code, pc + 1, g);
  }

  lemma SimPrefixed(md: Md, st: State, f: Frame, z: Prefix, g: Group, k2: Cont, r: Res)
    requires Static(md, st, f, k2, r, z.NoPrefix? && !HollowGroup(g)) && f.eptr == r.pos && GroupOk(md.c, g, k2)
    requires Has(md.code, f.pc, EncNode(Grp(z, g))) && KAt(md.code, f.pc + |EncNode(Grp(z, g))|, k2)
    requires Prog(md.c, k2, AllNode(md.c, Grp(z, g), r))
    ensures Goal(md, OpenCaps(k2), st.vec, Run(md, st, f), Outs(md.c, md.mstart, k2, AllNode(md.c, Grp(z, g), r)))
    decreases md.limit - st.count, 1, |md.code| - f.pc, 7
  {
    hide Run, Deeper, Outs, Prog, KAt, Goal, Static, GroupReady, Ready, EncGroup, EncNode, AllGroup, AllNode, Has, Span, OpenCaps, HollowGroup, GroupOk;
    PrefixedReady(md, st, f, z, g, k2, r);
    PrefixedWays(md.c, z, g, r);
    if z.NoPrefix? {
      SimGroup(md, st, f, g, k2, r);
    } else {
      RunPrefix(md, st, f, z, g);
      if z.BraZero? {
        SimBraZero(md, st, f, g, k2, r);
      } else if z.BraMinZero? {
        SimBraMinZero(md, st, f, g, k2, r);
      } else {
        SimRun(md, st, f.(pc := f.pc + 1 + Span(g) + 3), k2, r);
      }
    }
  }

  lemma PrefixedWays(c: Ctx, z: Prefix, g: Group, r: Res)
    requires r.pos <= |c.s|
    ensures match z
      case NoPrefix => AllNode(c, Grp(z, g), r) == AllGroup(c, g, r)
      case BraZero => AllNode(c, Grp(z, g), r) == AllGroup(c, g, r) + [r]
      case BraMinZero => AllNode(c, Grp(z, g), r) == [r] + AllGroup(c, g, r)
      case SkipZero => AllNode(c, Grp(z, g), r) == [r]
  {
    hide AllGroup;
  }

  lemma PrefixedProg(c: Ctx, z: Prefix, g: Group, k2: Cont, r: Res)
    requires Lo(k2) <= r.pos <= |c.s| && Prog(c, k2, AllNode(c, Grp(z, g), r))
    ensures Good(c, Lo(k2), AllGroup(c, g, r)) && Good(c, Lo(k2), [r])
    ensures z != SkipZero ==> Prog(c, k2, AllGroup(c, g, r))
    ensures z == SkipZero ==> Prog(c, k2, [r])
  {
    PrefixedWays(c, z, g, r);
    hide Prog, AllGroup, AllNode;
    if z.BraZero? { ProgAppend(c, k2, AllGroup(c, g, r), [r]); }
    if z.BraMinZero? { ProgAppend(c, k2, [r], AllGroup(c, g, r)); }
  }

  lemma PrefixedCode(md: Md, pc: nat, z: Prefix, g: Group, k2: Cont)
    requires MdOk(md) && Has(md.code, pc, EncNode(Grp(z, g))) && KAt(md.code, pc + |EncNode(Grp(z, g))|, k2)
    ensures var at := if z.NoPrefix? then pc else pc + 1;
      Has(md.code, at, EncGroup(g)) && KAt(md.code, at + Span(g) + 3, k2)
  {
    hide KAt, EncGroup, Has, Span;
    assert EncNode(Grp(z, g)) == EncPrefix(z) + EncGroup(g);
    if z.NoPrefix? { assert [] + EncGroup(g) == EncGroup(g); } else { PrefixAt(md.code, pc, z, g); }
  }

  /** The invariant in the bracket, and behind it. */
  lemma PrefixedReady(md: Md, st: State, f: Frame, z: Prefix, g: Group, k2: Cont, r: Res)
    requires Static(md, st, f, k2, r, z.NoPrefix? && !HollowGroup(g)) && f.eptr == r.pos && GroupOk(md.c, g, k2)
    requires Has(md.code, f.pc, EncNode(Grp(z, g))) && KAt(md.code, f.pc + |EncNode(Grp(z, g))|, k2)
    requires Prog(md.c, k2, AllNode(md.c, Grp(z, g), r))
    ensures MdOk(md) && Wf(md, st, f) && r.pos <= |md.c.s| && (!z.NoPrefix? ==> Static(md, st, f, k2, r, false))
    ensures z.NoPrefix? || z.BraZero? || z.BraMinZero? ==> GroupReady(md, st, if z.NoPrefix? then f else f.(pc := f.pc + 1), g, k2, r)
    ensures z.SkipZero? ==> Ready(md, st, f.(pc := f.pc + 1 + Span(g) + 3), k2, r)
  {
    hide Prog, KAt, KOk, Agree, ChainOk, GroupOk, EncGroup, EncNode, AllGroup, AllNode, Has, Span, HollowGroup;
    PrefixedCode(md, f.pc, z, g, k2);
    PrefixedProg(md.c, z, g, k2, r);
    if !z.NoPrefix? { StaticUp(md, st, f, k2, r, false, f.eptr, !HollowGroup(g)); }
  }

  lemma SimBraZero(md: Md, st: State, f: Frame, g: Group, k2: Cont, r: Res)
    requires GroupReady(md, st, f.(pc := f.pc + 1), g, k2, r) && f.pc < |md.code|
    requires Static(md, st, f, k2, r, false)
    requires Prog(md.c, k2, AllGroup(md.c, g, r) + [r])
    ensures var inside, after := f.(pc := f.pc + 1), f.(pc := f.pc + 1 + Span(g) + 3);
      var o := Deeper(md, st, inside, false);
      Goal(md, OpenCaps(k2), st.vec, if o.rc != NOMATCH then o else Run(md, o.st, after),
           Outs(md.c, md.mstart, k2, AllGroup(md.c, g, r) + [r]))
    decreases md.limit - st.count, 1, |md.code| - f.pc, 6
  {
    hide Run, Call, Outs, Prog, KAt, KOk, Agree, ChainOk, GroupOk, EncGroup, AllGroup, Same, Goal, Has;
    var a, inside, after := AllGroup(md.c, g, r), f.(pc := f.pc + 1), f.(pc := f.pc + 1 + Span(g) + 3);
    OutsAppend(md.c, md.mstart, k2, a, [r]);
    ProgAppend(md.c, k2, a, [r]);
    SimGroupCall(md, st, inside.(rdepth := f.rdepth + 1), false, g, k2, r);
    var o := Deeper(md, st, inside, false);
    GoalFirst(md, OpenCaps(k2), st.vec, o, Outs(md.c, md.mstart, k2, a), Outs(md.c, md.mstart, k2, [r]));
    if o.rc == NOMATCH {
      AgreeSame(md, k2, st.vec, o.st.vec, r.vec);
      SimRun(md, o.st, after, k2, r);
      GoalSecond(md, OpenCaps(k2), st.vec, o.st.vec, Run(md, o.st, after), Outs(md.c, md.mstart, k2, [r]));
    }
  }

  lemma SimBraMinZero(md: Md, st: State, f: Frame, g: Group, k2: Cont, r: Res)
    requires GroupReady(md, st, f.(pc := f.pc + 1), g, k2, r) && f.pc < |md.code|
    requires Static(md, st, f, k2, r, false)
    requires Prog(md.c, k2, [r] + AllGroup(md.c, g, r))
    ensures var inside, after := f.(pc := f.pc + 1), f.(pc := f.pc + 1 + Span(g) + 3);
      var o := Deeper(md, st, after, false);
      Goal(md, OpenCaps(k2), st.vec, if o.rc != NOMATCH then o else Run(md, o.st, inside),
           Outs(md.c, md.mstart, k2, [r] + AllGroup(md.c, g, r)))
    decreases md.limit - st.count, 1, |md.code| - f.pc, 6
  {
    hide Run, Call, Deeper, Outs, Prog, KAt, KOk, Agree, ChainOk, GroupOk, EncGroup, AllGroup, Same, Goal, Has;
    var a, inside, after := AllGroup(md.c, g, r), f.(pc := f.pc + 1), f.(pc := f.pc + 1 + Span(g) + 3);
    OutsAppend(md.c, md.mstart, k2, [r], a);
    ProgAppend(md.c, k2, [r], a);
    SimDeeper(md, st, after, false, k2, r);
    var o := Deeper(md, st, after, false);
    GoalFirst(md, OpenCaps(k2), st.vec, o, Outs(md.c, md.mstart, k2, [r]), Outs(md.c, md.mstart, k2, a));
    if o.rc == NOMATCH {
      AgreeSame(md, k2, st.vec, o.st.vec, r.vec);
      SimGroup(md, o.st, inside, g, k2, r);
      GoalSecond(md, OpenCaps(k2), st.vec, o.st.vec, Run(md, o.st, inside), Outs(md.c, md.mstart, k2, a));
    }
  }

  // ---------- leaving a bracket ----------

  function Closed(md: Md, st: State, g: Group, pos: nat): State
    requires md.offsetEnd % 3 == 0 && |st.vec| == md.offsetEnd
  {
    if g.cap == 0 then st else KetState(md, st, g.cap, pos)
  }

  /** The offsets that the ket sets are those of the ordered-choice meaning. */
  lemma CloseAgree(md: Md, st: State, k: Cont, r: Res)
    requires k.In? && Agree(md, k, st.vec, r.vec) && CapsGroup(k.g) !! OpenCaps(k.k)
    ensures var st1 := Closed(md, st, k.g, r.pos);
      Agree(md, k.k, st1.vec, Close(k.g.cap, k.start, r).vec) && Same(md, OpenCaps(k), st.vec, st1.vec)
  {
    var st1 := Closed(md, st, k.g, r.pos);
    if k.g.cap != 0 { assert k.g.cap in CapsGroup(k.g); }
    assert OpenCaps(k) == (if k.g.cap == 0 then {} else {k.g.cap}) + OpenCaps(k.k);
    WorkingSame(md, k.k, OpenCaps(k), st.vec, st1.vec);
  }

  lemma GoalWiden(md: Md, k: Cont, vec: seq<int>, vec1: seq<int>, o: Out, outs: seq<Res>)
    requires k.In? && Same(md, OpenCaps(k), vec, vec1) && Goal(md, OpenCaps(k.k), vec1, o, outs)
    ensures Goal(md, OpenCaps(k), vec, o, outs)
  {
  }

  lemma SimKet(md: Md, st: State, f: Frame, k: Cont, r: Res)
    requires Ready(md, st, f, k, r) && k.In? && k.ns.Nil? && f.pc == k.gpc + Span(k.g)
    ensures Goal(md, OpenCaps(k), st.vec, Run(md, st, f), Outs(md.c, md.mstart, k, [r]))
    decreases md.limit - st.count, 1, |md.code| - f.pc, 8
  {
    hide EncGroup, Has, Run, Outs, Prog, AfterClose, Agree, GroupOk, Same, Goal, Close, Closed, AllGroup, KAt, KOk, ChainOk, Span, At, Get, BraOp, KetOp, KetTop, KetOuts;
    KetLow(md, st, f, k, r);
    KetFacts(md, st, f, k, r);
    var g, r1, st1 := k.g, Close(k.g.cap, k.start, r), Closed(md, st, k.g, r.pos);
    var f1 := f.(chain := if g.s then f.chain[1..] else f.chain, top := r1.top);
    KetState1(md, st, f, k, r);
    KetRest(md, k, r, g.s && f.eptr == f.chain[0]);
    KetRuns(md, st, f, g, k.gpc);
    SimClose(md, st1, f1, k, r1, g.s && f.eptr == f.chain[0]);
    GoalWiden(md, k, st.vec, st1.vec, Run(md, st, f), Outs(md.c, md.mstart, k, [r]));
  }

  lemma KetLow(md: Md, st: State, f: Frame, k: Cont, r: Res)
    requires Ready(md, st, f, k, r) && k.In?
    ensures Lo(k.k) <= k.start <= r.pos <= |md.c.s| && md.offsetEnd % 3 == 0 && |st.vec| == md.offsetEnd
  {
    hide KAt, Agree, Prog, OkNodes, GroupOk, ValidNodes, Caps, Calm;
  }

  /** What the invariant gives at a ket: the code, */
  lemma KetFacts(md: Md, st: State, f: Frame, k: Cont, r: Res)
    requires Ready(md, st, f, k, r) && k.In? && k.ns.Nil? && f.pc == k.gpc + Span(k.g)
    ensures var g := k.g;
      && (g.s ==> f.chain != [] && (f.chain[0] == r.pos <==> k.start == r.pos)) && k.gpc < f.pc < |md.code| && g.cap < 0x1_0000
      && KAt(md.code, f.pc + 3, k.k) && GroupOk(md.c, g, k.k)
      && Has(md.code, k.gpc, EncGroup(g)) && At(md.code, f.pc) == KetOp(g.ket)
      && Get(md.code, f.pc + 1) == f.pc - k.gpc && At(md.code, k.gpc) == BraOp(g)
      && (g.cap != 0 ==> Get(md.code, k.gpc + 3) == g.cap)
  {
    hide EncGroup, Has, Prog, Agree, OkGroup, ValidNodes, ValidAlts, EncNodes, EncAlts, EncHead, Get, At, CapsGroup, OpenCaps, Behind, CalmGroup, Calm, BraOp, KetOp, Wf;
    GroupAt(md.code, k.gpc, k.g);
    GapIs(k.g);
  }

  lemma GapIs(g: Group)
    ensures Span(g) >= 3
  {
    hide EncNodes, EncAlts;
  }

  /** the state, */
  lemma KetState1(md: Md, st: State, f: Frame, k: Cont, r: Res)
    requires Static(md, st, f, k, r, false) && f.eptr == r.pos && k.In? && k.ns.Nil?
    ensures var g, r1, st1 := k.g, Close(k.g.cap, k.start, r), Closed(md, st, k.g, r.pos);
      var f1 := f.(chain := if g.s then f.chain[1..] else f.chain, top := r1.top);
      && r1.pos == r.pos && r1.top == (if g.cap == 0 then r.top else KetTop(md, r.top, g.cap))
      && Static(md, st1, f1, k.k, r1, false) && Same(md, OpenCaps(k), st.vec, st1.vec) && st1.count == st.count
  {
    assert Hollow(k.ns) && (k.g.s ==> f.chain != []);
    CloseAgree(md, st, k, r);
    KetTopOk(md, st, k, r);
    hide Agree, Same, OkNodes, OkGroup, ValidGroup, ValidNodes, Caps, CapsGroup, Calm, CalmGroup;
  }

  lemma KetTopOk(md: Md, st: State, k: Cont, r: Res)
    requires k.In? && md.offsetEnd % 3 == 0 && |r.vec| == md.OffsetMax()
    ensures Close(k.g.cap, k.start, r).top == if k.g.cap == 0 then r.top else KetTop(md, r.top, k.g.cap)
  {
    hide Outs, Prog, KAt, KOk, Agree, Goal;
  }

  /** and what remains to be matched. */
  lemma KetRest(md: Md, k: Cont, r: Res, empty: bool)
    requires k.In? && k.ns.Nil? && Lo(k.k) <= k.start <= r.pos <= |md.c.s| && Prog(md.c, k, [r])
    requires empty == (k.g.s && r.pos == k.start)
    ensures var r1 := Close(k.g.cap, k.start, r);
      && r1.pos == r.pos && Good(md.c, Lo(k.k), KetOuts(md, k, r1, empty))
      && Outs(md.c, md.mstart, k, [r]) == Outs(md.c, md.mstart, k.k, KetOuts(md, k, r1, empty))
      && Prog(md.c, k.k, KetOuts(md, k, r1, empty))
  {
    OutsNil(md.c, md.mstart, k, r);
    hide Outs, Prog;
    assert [r][1..] == [];
    assert AfterKet(md.c, k.g, k.start, [r]) == KetChoice(md.c, k.g, k.start, r);
    hide AfterKet;
    assert KetChoice(md.c, k.g, k.start, r) == KetOuts(md, k, Close(k.g.cap, k.start, r), empty);
  }

  lemma KetRuns(md: Md, st: State, f: Frame, g: Group, gpc: nat)
    requires MdOk(md) && Wf(md, st, f) && gpc < f.pc < |md.code| && g.cap < 0x1_0000
    requires At(md.code, f.pc) == KetOp(g.ket) && Get(md.code, f.pc + 1) == f.pc - gpc
    requires At(md.code, gpc) == BraOp(g) && (g.cap != 0 ==> Get(md.code, gpc + 3) == g.cap)
    requires g.s ==> f.chain != []
    ensures Run(md, st, f) ==
      AfterClose(md, Closed(md, st, g, f.eptr),
                 f.(chain := if g.s then f.chain[1..] else f.chain,
                    top := if g.cap == 0 then f.top else KetTop(md, f.top, g.cap)),
                 gpc, g.s, g.s && f.eptr == f.chain[0])
  {
    hide Call, Deeper, RunRepeat, RunBra, AfterClose, DecodeRepeat, SkipAlts, Get, KetState, KetTop;
    assert Run(md, st, f) == RunKet(md, st, f);
    hide Run;
  }

  /** After the ket: k's group has been closed, giving r1. */
  ghost function KetOuts(md: Md, k: Cont, r1: Res, empty: bool): seq<Res>
    requires k.In? && Lo(k.k) <= r1.pos <= |md.c.s|
  {
    if k.g.ket == Ket || empty then [r1]
    else if k.g.ket == KetRMax then AllGroup(md.c, k.g, r1) + [r1]
    else [r1] + AllGroup(md.c, k.g, r1)
  }

  ghost predicate CloseReady(md: Md, st: State, f: Frame, k: Cont, r1: Res) {
    k.In? && Static(md, st, f, k.k, r1, false) && f.eptr == r1.pos && f.pc < |md.code| && f.pc == k.gpc + Span(k.g) &&
    Has(md.code, k.gpc, EncGroup(k.g)) && KAt(md.code, f.pc + 3, k.k) && GroupOk(md.c, k.g, k.k)
  }

  lemma SimClose(md: Md, st: State, f: Frame, k: Cont, r1: Res, empty: bool)
    requires CloseReady(md, st, f, k, r1)
    requires Good(md.c, Lo(k.k), KetOuts(md, k, r1, empty)) && Prog(md.c, k.k, KetOuts(md, k, r1, empty))
    ensures Goal(md, OpenCaps(k.k), st.vec, AfterClose(md, st, f, k.gpc, k.g.s, empty),
                 Outs(md.c, md.mstart, k.k, KetOuts(md, k, r1, empty)))
    decreases md.limit - st.count, 1, |md.code| - f.pc, 7
  {
    CloseAt(md, st, f, k, r1, empty);
    hide EncGroup, Has, Outs, Prog, Run, Call, Deeper, AfterClose, KAt, KOk, Agree, ChainOk, GroupOk, Same, Goal, AllGroup;
    if k.g.ket == Ket || empty {
      SimRun(md, st, f.(pc := f.pc + 3), k.k, r1);
    } else if k.g.ket == KetRMin {
      SimRMin(md, st, f, k, r1);
    } else {
      SimRMax(md, st, f, k, r1);
    }
  }

  lemma CloseIs(md: Md, st: State, f: Frame, k: Cont, empty: bool)
    requires k.In? && Wf(md, st, f) && f.pc < |md.code| && At(md.code, f.pc) == KetOp(k.g.ket)
    ensures var after, again := f.(pc := f.pc + 3), f.(pc := k.gpc);
      AfterClose(md, st, f, k.gpc, k.g.s, empty) ==
        if k.g.ket == Ket || empty then Run(md, st, after)
        else if k.g.ket == KetRMin then
          var o := Deeper(md, st, after, false);
          if o.rc != NOMATCH then o
          else if k.g.s then Deeper(md, o.st, again, true) else Call(md, o.st, again, false)
        else
          var o := Deeper(md, st, again, k.g.s);
          if o.rc != NOMATCH then o else Call(md, o.st, after, false)
  {
    hide Run, Call, Deeper;
    AtIs(md.code, f.pc);
  }

  /** What AfterClose does, by the kind of the ket. */
  lemma CloseAt(md: Md, st: State, f: Frame, k: Cont, r1: Res, empty: bool)
    requires CloseReady(md, st, f, k, r1)
    ensures var after, again := f.(pc := f.pc + 3), f.(pc := k.gpc);
      AfterClose(md, st, f, k.gpc, k.g.s, empty) ==
        if k.g.ket == Ket || empty then Run(md, st, after)
        else if k.g.ket == KetRMin then
          var o := Deeper(md, st, after, false);
          if o.rc != NOMATCH then o
          else if k.g.s then Deeper(md, o.st, again, true) else Call(md, o.st, again, false)
        else
          var o := Deeper(md, st, again, k.g.s);
          if o.rc != NOMATCH then o else Call(md, o.st, after, false)
  {
    hide Run, Call, Deeper, EncGroup, Has, EncNodes, EncAlts, Get, KAt, KOk, Agree, ChainOk, GroupOk;
    GroupAt(md.code, k.gpc, k.g);
    AtIs(md.code, f.pc);
  }

  lemma SBehind(c: Ctx, g: Group, k: Cont)
    requires GroupOk(c, g, k)
    ensures g.s ==> Behind(k)
  {
    hide OkGroup, ValidGroup, CapsGroup, Behind;
  }

  /** Another iteration. */
  lemma AgainReady(md: Md, st: State, f: Frame, k: Cont, r1: Res)
    requires CloseReady(md, st, f, k, r1) && Good(md.c, Lo(k.k), AllGroup(md.c, k.g, r1)) && Prog(md.c, k.k, AllGroup(md.c, k.g, r1))
    ensures GroupReady(md, st, f.(pc := k.gpc), k.g, k.k, r1) && (k.g.s ==> Behind(k.k))
  {
    hide EncGroup, Has, Prog, KAt, KOk, Agree, ChainOk, GroupOk, AllGroup, HollowGroup, Behind;
    SBehind(md.c, k.g, k.k);
    StaticUp(md, st, f, k.k, r1, false, f.eptr, !HollowGroup(k.g));
  }

  lemma SimRMin(md: Md, st: State, f: Frame, k: Cont, r1: Res)
    requires CloseReady(md, st, f, k, r1) && Good(md.c, Lo(k.k), AllGroup(md.c, k.g, r1))
    requires Prog(md.c, k.k, [r1] + AllGroup(md.c, k.g, r1))
    ensures var after, again := f.(pc := f.pc + 3), f.(pc := k.gpc);
      var o := Deeper(md, st, after, false);
      Goal(md, OpenCaps(k.k), st.vec,
           if o.rc != NOMATCH then o
           else if k.g.s then Deeper(md, o.st, again, true) else Call(md, o.st, again, false),
           Outs(md.c, md.mstart, k.k, [r1] + AllGroup(md.c, k.g, r1)))
    decreases md.limit - st.count, 1, |md.code| - f.pc, 6
  {
    hide EncGroup, Has, Outs, Prog, Run, Call, KAt, KOk, Agree, ChainOk, GroupOk, Behind, Same, Goal, AllGroup;
    var g, k2, a := k.g, k.k, AllGroup(md.c, k.g, r1);
    var after, again := f.(pc := f.pc + 3), f.(pc := k.gpc);
    var x, y := Outs(md.c, md.mstart, k2, [r1]), Outs(md.c, md.mstart, k2, a);
    OutsAppend(md.c, md.mstart, k2, [r1], a);
    ProgAppend(md.c, k2, [r1], a);
    SimDeeper(md, st, after, false, k2, r1);
    var o := Deeper(md, st, after, false);
    GoalFirst(md, OpenCaps(k2), st.vec, o, x, y);
    if o.rc == NOMATCH {
      AgreeSame(md, k2, st.vec, o.st.vec, r1.vec);
      AgainReady(md, o.st, f, k, r1);
      SimGroupCall(md, o.st, if g.s then again.(rdepth := f.rdepth + 1) else again, g.s, g, k2, r1);
      GoalSecond(md, OpenCaps(k2), st.vec, o.st.vec,
                 if g.s then Deeper(md, o.st, again, true) else Call(md, o.st, again, false), y);
    }
  }

  lemma SimRMax(md: Md, st: State, f: Frame, k: Cont, r1: Res)
    requires CloseReady(md, st, f, k, r1) && Good(md.c, Lo(k.k), AllGroup(md.c, k.g, r1))
    requires Prog(md.c, k.k, AllGroup(md.c, k.g, r1) + [r1])
    ensures var after, again := f.(pc := f.pc + 3), f.(pc := k.gpc);
      var o := Deeper(md, st, again, k.g.s);
      Goal(md, OpenCaps(k.k), st.vec, if o.rc != NOMATCH then o else Call(md, o.st, after, false),
           Outs(md.c, md.mstart, k.k, AllGroup(md.c, k.g, r1) + [r1]))
    decreases md.limit - st.count, 1, |md.code| - f.pc, 6
  {
    hide EncGroup, Has, Outs, Prog, Run, Call, KAt, KOk, Agree, ChainOk, GroupOk, Behind, Same, Goal, AllGroup;
    var g, k2, a := k.g, k.k, AllGroup(md.c, k.g, r1);
    var after, again := f.(pc := f.pc + 3), f.(pc := k.gpc);
    var x, y := Outs(md.c, md.mstart, k2, [r1]), Outs(md.c, md.mstart, k2, a);
    OutsAppend(md.c, md.mstart, k2, a, [r1]);
    ProgAppend(md.c, k2, a, [r1]);
    AgainReady(md, st, f, k, r1);
    SimGroupCall(md, st, again.(rdepth := f.rdepth + 1), g.s, g, k2, r1);
    var o := Deeper(md, st, again, g.s);
    GoalFirst(md, OpenCaps(k2), st.vec, o, y, x);
    if o.rc == NOMATCH {
      AgreeSame(md, k2, st.vec, o.st.vec, r1.vec);
      SimCall(md, o.st, after, false, k2, r1);
      GoalSecond(md, OpenCaps(k2), st.vec, o.st.vec, Call(md, o.st, after, false), x);
    }
  }
}
