/** When match() does not end: on an empty subject it runs into a repeating bracket that
    could match empty and has not the S form, and never gets out of it. */
module Traps {
  import opened Bytes
  import opened Code
  import opened Layout
  import opened Semantics
  import opened Machine
  import opened Shape
  import opened Repeats
  import opened Simulation
  import opened Correctness
  import opened Emptiness
  import opened Limits
  import opened Termination

  // ---------- where traps are ----------

  /** A repeating bracket that ought to have the S form and has not. */
  predicate Trap(g: Group) { g.ket != Ket && !g.s && HollowGroup(g) }

  /** A trap is entered before a byte is consumed. */
  predicate Exposed(ns: Nodes) {
    match ns
    case Nil => false
    case Cons(n, rest) => (n.Grp? && n.z != SkipZero && ExposedGroup(n.g)) || (HollowNode(n) && Exposed(rest))
  }

  predicate ExposedGroup(g: Group) { Trap(g) || Exposed(g.b) || ExposedAlts(g.more) }

  predicate ExposedAlts(a: Alts) {
    match a
    case NoAlt => false
    case Alt(b, more) => Exposed(b) || ExposedAlts(more)
  }

  predicate GreedyTrap(g: Group) { Trap(g) && g.ket == KetRMax }

  /** There is no way past these items but through a greedy trap. */
  predicate Catches(ns: Nodes) {
    match ns
    case Nil => false
    case Cons(n, rest) =>
      (n.Grp? && ((n.z == NoPrefix && CatchesGroup(n.g)) || (n.z == BraZero && GreedyTrap(n.g)))) || Catches(rest)
  }

  predicate CatchesGroup(g: Group) { GreedyTrap(g) || (Catches(g.b) && CatchesAlts(g.more)) }

  predicate CatchesAlts(a: Alts) {
    match a
    case NoAlt => true
    case Alt(b, more) => Catches(b) && CatchesAlts(more)
  }

  /** On an empty subject no match can come of k. */
  predicate Barren(c: Ctx, k: Cont) {
    c.notempty || (k.In? && (Catches(k.ns) || GreedyTrap(k.g) || Barren(c, k.k)))
  }

  predicate BarrenGroup(c: Ctx, g: Group, k2: Cont) { CatchesGroup(g) || Barren(c, k2) }

  /** k leads into a trap: one in its items, or one that it is in. */
  predicate Doomed(k: Cont) {
    k.In? && (Exposed(k.ns) || (Hollow(k.ns) && (Trap(k.g) || Doomed(k.k))))
  }

  predicate DoomedGroup(g: Group, k2: Cont) { ExposedGroup(g) || (HollowGroup(g) && Doomed(k2)) }

  /** One of the branches b and more does. */
  predicate DoomedBranches(b: Nodes, more: Alts, g: Group, gpc: nat, k2: Cont)
    decreases more
  {
    Doomed(In(b, g, gpc, 0, k2)) || (more.Alt? && DoomedBranches(more.b, more.more, g, gpc, k2))
  }

  lemma {:induction false} DoomedAlts(b: Nodes, more: Alts, g: Group, gpc: nat, k2: Cont)
    requires Exposed(b) || ExposedAlts(more) || ((Hollow(b) || HollowAlts(more)) && (Trap(g) || Doomed(k2)))
    ensures DoomedBranches(b, more, g, gpc, k2)
    decreases more
  {
    hide Exposed, Hollow, Trap;
    if more.Alt? && !Doomed(In(b, g, gpc, 0, k2)) { DoomedAlts(more.b, more.more, g, gpc, k2); }
  }

  // ---------- the invariant ----------

  /** Every anchor holds at the place 0, which depends on the options. */
  predicate Firm(c: Ctx, ns: Nodes) {
    match ns
    case Nil => true
    case Cons(n, rest) => (n.Zero? ==> ZeroOk(c, n.op, 0)) && (n.Grp? ==> FirmGroup(c, n.g)) && Firm(c, rest)
  }

  predicate FirmGroup(c: Ctx, g: Group) { Firm(c, g.b) && FirmAlts(c, g.more) }

  predicate FirmAlts(c: Ctx, a: Alts) {
    match a
    case NoAlt => true
    case Alt(b, more) => Firm(c, b) && FirmAlts(c, more)
  }

  /** Without PCRE_NOTBOL and PCRE_NOTEOL they all hold on an empty subject. */
  lemma {:induction false} BlankFirm(c: Ctx, ns: Nodes)
    requires c.s == [] && !c.notbol && !c.noteol && ValidNodes(ns, c.nocase)
    ensures Firm(c, ns)
    decreases ns, 1
  {
    if ns.Cons? {
      if ns.n.Grp? { BlankFirmGroup(c, ns.n.g); }
      BlankFirm(c, ns.rest);
    }
  }

  lemma {:induction false} BlankFirmGroup(c: Ctx, g: Group)
    requires c.s == [] && !c.notbol && !c.noteol && ValidGroup(g, c.nocase)
    ensures FirmGroup(c, g)
    decreases g, 0
  {
    BlankFirm(c, g.b);
    BlankFirmAlts(c, g.more);
  }

  lemma {:induction false} BlankFirmAlts(c: Ctx, a: Alts)
    requires c.s == [] && !c.notbol && !c.noteol && ValidAlts(a, c.nocase)
    ensures FirmAlts(c, a)
    decreases a, 1
  {
    if a.Alt? {
      BlankFirm(c, a.b);
      BlankFirmAlts(c, a.more);
    }
  }

  predicate PlainGroup(c: Ctx, g: Group) { ValidGroup(g, c.nocase) && FirmGroup(c, g) }

  predicate Formal(c: Ctx, k: Cont) {
    k.In? ==> ValidNodes(k.ns, c.nocase) && Firm(c, k.ns) && PlainGroup(c, k.g) && Formal(c, k.k)
  }

  function Depth(k: Cont): nat { if k.Done? then 0 else (if k.g.s then 1 else 0) + Depth(k.k) }

  /** A block at 0 for every open S bracket, if not more. */
  predicate Zeros(chain: seq<nat>, n: nat) { n <= |chain| && forall i :: 0 <= i < |chain| ==> chain[i] == 0 }

  ghost predicate Stuck(md: Md, st: State, f: Frame, k: Cont) {
    MdOk(md) && Wf(md, st, f) && md.c.s == [] && md.mstart == 0 && KAt(md.code, f.pc, k) && Formal(md.c, k) && Zeros(f.chain, Depth(k))
  }

  ghost predicate StuckGroup(md: Md, st: State, f: Frame, g: Group, k2: Cont) {
    && MdOk(md) && Wf(md, st, f) && md.c.s == [] && md.mstart == 0
    && Has(md.code, f.pc, EncGroup(g)) && KAt(md.code, f.pc + Span(g) + 3, k2)
    && PlainGroup(md.c, g) && Formal(md.c, k2) && Zeros(f.chain, Depth(k2))
  }

  ghost predicate StuckBranch(md: Md, st: State, f: Frame, b: Nodes, more: Alts, g: Group, gpc: nat, k2: Cont) {
    && MdOk(md) && Wf(md, st, f) && md.c.s == [] && md.mstart == 0
    && f.pc < |md.code| && BranchAt(md.code, f.pc, b, more, g, gpc) && KAt(md.code, gpc + Span(g) + 3, k2)
    && ValidNodes(b, md.c.nocase) && ValidAlts(more, md.c.nocase) && Firm(md.c, b) && FirmAlts(md.c, more) && PlainGroup(md.c, g)
    && Formal(md.c, k2) && Zeros(f.chain, Depth(k2))
  }

  /** No match; a limit, at the latest in a trap. */
  predicate Fails(o: Out, doomed: bool) { HitLimit(o) || (o.rc == NOMATCH && !doomed) }

  lemma StuckOk(md: Md, st: State, f: Frame, k: Cont)
    requires Stuck(md, st, f, k)
    ensures MdOk(md) && Wf(md, st, f) && KAt(md.code, f.pc, k) && f.eptr == 0 == |md.c.s|
    ensures k.In? && k.ns.Cons? ==> ValidNode(k.ns.n, md.c.nocase) && ValidNodes(k.ns.rest, md.c.nocase)
    ensures k.In? && k.ns.Cons? && k.ns.n.Zero? ==> ZeroOk(md.c, k.ns.n.op, 0)
  {
    hide KAt;
  }

  lemma StuckNext(md: Md, st: State, f: Frame, k: Cont, st': State, f': Frame)
    requires Stuck(md, st, f, k) && k.In? && k.ns.Cons? && Wf(md, st', f') && f'.chain == f.chain
    requires KAt(md.code, f'.pc, k.(ns := k.ns.rest))
    ensures Stuck(md, st', f', k.(ns := k.ns.rest))
  {
    hide KAt;
  }

  // ---------- the run ----------

  lemma {:induction false} DCall(md: Md, st: State, f: Frame, cbe: bool, k: Cont)
    requires Stuck(md, st, Pushed(f, cbe), k) && Barren(md.c, k)
    ensures Fails(Call(md, st, f, cbe), Doomed(k))
    decreases md.limit - st.count, 0, 0
  {
    hide Run, KAt, Formal, Zeros, Barren, Doomed;
    if st.count < md.limit && f.rdepth < md.rlimit { DRun(md, st.(count := st.count + 1), Pushed(f, cbe), k); }
  }

  lemma {:induction false} DDeeper(md: Md, st: State, f: Frame, cbe: bool, k: Cont)
    requires Stuck(md, st, Pushed(f, cbe), k) && Barren(md.c, k)
    ensures Fails(Deeper(md, st, f, cbe), Doomed(k))
    decreases md.limit - st.count, 0, 1
  {
    hide Call, KAt, Formal, Zeros, Barren, Doomed;
    DCall(md, st, f.(rdepth := f.rdepth + 1), cbe, k);
  }

  /** From any place of compiled code, on an empty subject: where no match can come of
      what is left there is none, and where it leads into a trap only a limit ends it. */
  lemma {:induction false} DRun(md: Md, st: State, f: Frame, k: Cont)
    requires Stuck(md, st, f, k) && Barren(md.c, k)
    ensures Fails(Run(md, st, f), Doomed(k))
    decreases md.limit - st.count, 1, |md.code| - f.pc, 9
  {
    hide Run, KAt, Formal, Zeros, Exposed, Hollow, Trap;
    StuckOk(md, st, f, k);
    if k.Done? {
      AtEnd(md, st, f);
    } else if k.ns.Cons? {
      DNode(md, st, f, k);
    } else if f.pc == k.gpc + Span(k.g) {
      DKet(md, st, f, k);
    } else {
      BranchEnd(md, st, f, k);
      DRun(md, st, f.(pc := k.gpc + Span(k.g)), k);
    }
  }

  lemma AtEnd(md: Md, st: State, f: Frame)
    requires Wf(md, st, f) && KAt(md.code, f.pc, Done) && f.eptr == md.mstart && md.c.notempty
    ensures Run(md, st, f) == Out(NOMATCH, st)
  {
    hide Call, Deeper, RunRepeat, RunBra, RunKet;
  }

  /** Past the first item. */
  lemma PastItem(c: Ctx, k: Cont)
    requires k.In? && k.ns.Cons? && Barren(c, k)
    ensures k.ns.n.Grp? || Barren(c, k.(ns := k.ns.rest))
    ensures k.ns.n.Grp? ==> (if k.ns.n.z == NoPrefix then BarrenGroup(c, k.ns.n.g, k.(ns := k.ns.rest))
                             else Barren(c, k.(ns := k.ns.rest)) || (k.ns.n.z == BraZero && GreedyTrap(k.ns.n.g)))
  {
  }

  lemma DoomAhead(k: Cont)
    requires k.In? && k.ns.Cons? && Doomed(k)
    ensures (k.ns.n.Grp? && k.ns.n.z != SkipZero && ExposedGroup(k.ns.n.g)) || (HollowNode(k.ns.n) && Doomed(k.(ns := k.ns.rest)))
  {
  }

  lemma {:induction false} DNode(md: Md, st: State, f: Frame, k: Cont)
    requires Stuck(md, st, f, k) && Barren(md.c, k) && k.In? && k.ns.Cons?
    ensures Fails(Run(md, st, f), Doomed(k))
    decreases md.limit - st.count, 1, |md.code| - f.pc, 8
  {
    hide Run, KAt, Formal, Zeros, Barren, Doomed, ExposedGroup, ZeroOk, DecodeRepeat, EncRep, EncOne, EncGroup, Has, ValidGroup, HollowGroup;
    var n, k2 := k.ns.n, k.(ns := k.ns.rest);
    StuckOk(md, st, f, k);
    KAtStep(md.code, f.pc, k);
    PastItem(md.c, k);
    if Doomed(k) { DoomAhead(k); }
    match n
    case Zero(op) =>
      RunZero(md, st, f, op);
      StuckNext(md, st, f, k, st, f.(pc := f.pc + 1));
      DRun(md, st, f.(pc := f.pc + 1), k2);
    case One(x) =>
      NextByte(md, f.pc + |EncOne(x)|, k2) by { StuckNext(md, st, f, k, st, f.(pc := f.pc + |EncOne(x)|)); }
      DecodeOne(md, f.pc, x);
      DRepeat(md, st, f, k, Repeat(x, 1, 1, false, false, f.pc + |EncOne(x)|));
    case Rep(x, kd) =>
      DecodeRep(md, f.pc, x, kd);
      DRepeat(md, st, f, k, Repeat(x, kd.Min(), kd.Max(), kd.M() == Lazy, kd.M() == Possessive, f.pc + |EncRep(x, kd)|));
    case Grp(z, g) =>
      DPrefixed(md, st, f, z, g, k);
  }

  /** A repeated item takes no byte, if it does not need one. */
  lemma {:induction false} DRepeat(md: Md, st: State, f: Frame, k: Cont, d: Repeat)
    requires Stuck(md, st, f, k) && k.In? && k.ns.Cons? && Barren(md.c, k.(ns := k.ns.rest))
    requires IsRepeatOp(At(md.code, f.pc)) && DecodeRepeat(md, f.pc) == d && KAt(md.code, d.next, k.(ns := k.ns.rest))
    requires d.max < 0 || d.min <= d.max
    ensures Fails(Run(md, st, f), d.min == 0 && Doomed(k.(ns := k.ns.rest)))
    decreases md.limit - st.count, 1, |md.code| - f.pc, 7
  {
    hide Run, KAt, Formal, Zeros, Barren, Doomed, DecodeRepeat, WalkBack, Lazily, RunRepeat;
    StuckOk(md, st, f, k);
    RunIsRepeat(md, st, f, d);
    if d.min > 0 {
      RepeatFails(md, st, f, d);
    } else {
      var k2, g := k.(ns := k.ns.rest), f.(pc := d.next);
      RunTaken(md, st, f, d, 0);
      assert f.(eptr := 0, pc := d.next) == g;
      StuckNext(md, st, f, k, st, g);
      if d.max == 0 || (!d.lazy && d.poss) {
        DRun(md, st, g, k2);
      } else {
        DDeeper(md, st, g, false, k2);
        if d.lazy { LazyStep(md, st, g, d, 0); } else { WalkStep(md, st, g, 0); }
      }
    }
  }

  // ---------- brackets ----------

  lemma {:induction false} DPrefixed(md: Md, st: State, f: Frame, z: Prefix, g: Group, k: Cont)
    requires Stuck(md, st, f, k) && Barren(md.c, k) && k.In? && k.ns.Cons? && k.ns.n == Grp(z, g)
    ensures Fails(Run(md, st, f), Doomed(k))
    decreases md.limit - st.count, 1, |md.code| - f.pc, 7
  {
    hide Run, Call, Deeper, KAt, Formal, Zeros, Barren, Doomed, ExposedGroup, EncGroup, Has, ValidGroup, HollowGroup, Span, Trap;
    var k2, inside, after := k.(ns := k.ns.rest), f.(pc := f.pc + 1), f.(pc := f.pc + 1 + Span(g) + 3);
    PrefixedStuck(md, st, f, z, g, k);
    PastItem(md.c, k);
    if Doomed(k) { DoomAhead(k); }
    if z.NoPrefix? {
      DGroup(md, st, f, g, k2);
    } else {
      RunPrefix(md, st, f, z, g);
      if z.BraZero? {
        DGroupDeeper(md, st, inside, false, g, k2);
        var o := Deeper(md, st, inside, false);
        if o.rc == NOMATCH {
          assert !GreedyTrap(g) by { TrapExposed(g); }
          DRun(md, o.st, after, k2);
        }
      } else if z.BraMinZero? {
        DDeeper(md, st, after, false, k2);
        var o := Deeper(md, st, after, false);
        if o.rc == NOMATCH { DGroup(md, o.st, inside, g, k2); }
      } else {
        DRun(md, st, after, k2);
      }
    }
  }

  lemma TrapExposed(g: Group)
    ensures GreedyTrap(g) ==> ExposedGroup(g) && CatchesGroup(g)
  {
  }

  /** The invariant inside and behind a bracket that is the first item. */
  lemma PrefixedStuck(md: Md, st: State, f: Frame, z: Prefix, g: Group, k: Cont)
    requires Stuck(md, st, f, k) && k.In? && k.ns.Cons? && k.ns.n == Grp(z, g)
    ensures MdOk(md) && Wf(md, st, f) && Has(md.code, f.pc, EncNode(Grp(z, g)))
    ensures var k2, inside, after := k.(ns := k.ns.rest), f.(pc := f.pc + 1), f.(pc := f.pc + 1 + Span(g) + 3);
      StuckGroup(md, st, if z.NoPrefix? then f else inside, g, k2) && (!z.NoPrefix? ==> Stuck(md, st, after, k2))
  {
    hide KAt, Has, EncGroup, ValidGroup, Span;
    StuckOk(md, st, f, k);
    KAtStep(md.code, f.pc, k);
    if z.NoPrefix? {
      assert EncNode(Grp(z, g)) == EncGroup(g);
    } else {
      PrefixAt(md.code, f.pc, z, g);
      assert EncNode(Grp(z, g)) == EncPrefix(z) + EncGroup(g);
      StuckNext(md, st, f, k, st, f.(pc := f.pc + 1 + Span(g) + 3));
    }
  }

  lemma {:induction false} DGroupCall(md: Md, st: State, f: Frame, cbe: bool, g: Group, k2: Cont)
    requires StuckGroup(md, st, f, g, k2) && BarrenGroup(md.c, g, k2)
    ensures Fails(Call(md, st, f, cbe), DoomedGroup(g, k2))
    decreases md.limit - st.count, 0, 0
  {
    hide Run, KAt, Formal, BarrenGroup, DoomedGroup, Has, EncGroup, ValidGroup;
    if st.count < md.limit && f.rdepth < md.rlimit { DGroup(md, st.(count := st.count + 1), Pushed(f, cbe), g, k2); }
  }

  lemma {:induction false} DGroupDeeper(md: Md, st: State, f: Frame, cbe: bool, g: Group, k2: Cont)
    requires StuckGroup(md, st, f, g, k2) && BarrenGroup(md.c, g, k2)
    ensures Fails(Deeper(md, st, f, cbe), DoomedGroup(g, k2))
    decreases md.limit - st.count, 0, 1
  {
    hide Call, KAt, Formal, Zeros, BarrenGroup, DoomedGroup, Has, EncGroup, ValidGroup;
    DGroupCall(md, st, f.(rdepth := f.rdepth + 1), cbe, g, k2);
  }

  /** The same on entering a bracket. */
  lemma {:induction false} DGroup(md: Md, st: State, f: Frame, g: Group, k2: Cont)
    requires StuckGroup(md, st, f, g, k2) && BarrenGroup(md.c, g, k2)
    ensures Fails(Run(md, st, f), DoomedGroup(g, k2))
    decreases md.limit - st.count, 1, |md.code| - f.pc, 6
  {
    hide Call, Deeper, CapAlts, BraAlts, KAt, Formal, Zeros, Barren, Doomed, DoomedBranches, Catches, Exposed, Hollow, EncGroup, Has, Restore, BranchAt;
    var st1 := Started(md, st, g, f.eptr);
    GroupCode(md, f.pc, g);
    RunIsBra(md, st, f, g);
    hide Run;
    if DoomedGroup(g, k2) { DoomedAlts(g.b, g.more, g, f.pc, k2); }
    if Room(md, g) {
      DCap(md, st1, f, g.b, g.more, g, f.pc, k2);
    } else {
      DAlts(md, st1, f, g.b, g.more, g, f.pc, k2);
    }
  }

  predicate BarrenBranches(c: Ctx, b: Nodes, more: Alts, g: Group, k2: Cont) {
    GreedyTrap(g) || (Catches(b) && CatchesAlts(more)) || Barren(c, k2)
  }

  lemma BranchStuck(md: Md, st: State, f: Frame, b: Nodes, more: Alts, g: Group, gpc: nat, k2: Cont)
    requires StuckBranch(md, st, f, b, more, g, gpc, k2) && BarrenBranches(md.c, b, more, g, k2)
    ensures Stuck(md, st, Pushed(f.(pc := f.pc + OpenLen(At(md.code, f.pc))), g.s), In(b, g, gpc, 0, k2))
    ensures Barren(md.c, In(b, g, gpc, 0, k2))
  {
    hide KAt, BranchAt, ValidGroup, ValidNodes, Catches, OpenLen;
    BranchCode(md, f.pc, b, more, g, gpc, 0, k2);
  }

  lemma BranchNext(md: Md, st: State, st': State, f: Frame, b: Nodes, more: Alts, g: Group, gpc: nat, k2: Cont)
    requires StuckBranch(md, st, f, b, more, g, gpc, k2) && BarrenBranches(md.c, b, more, g, k2) && more.Alt? && Wf(md, st', f)
    ensures var next := f.pc + Get(md.code, f.pc + 1);
      f.pc < next && At(md.code, next) == OP_ALT && StuckBranch(md, st', f.(pc := next), more.b, more.more, g, gpc, k2) &&
      BarrenBranches(md.c, more.b, more.more, g, k2)
  {
    hide KAt, BranchAt, ValidGroup, ValidNodes, Catches, Get;
    NextCode(md, f.pc, b, more, g, gpc);
  }

  lemma BranchLast(md: Md, st: State, f: Frame, b: Nodes, g: Group, gpc: nat, k2: Cont)
    requires StuckBranch(md, st, f, b, NoAlt, g, gpc, k2)
    ensures At(md.code, f.pc + Get(md.code, f.pc + 1)) != OP_ALT
  {
    hide KAt, BranchAt;
    LastCode(md, f.pc, b, g, gpc);
  }

  lemma {:induction false} DCap(md: Md, st: State, f: Frame, b: Nodes, more: Alts, g: Group, gpc: nat, k2: Cont)
    requires StuckBranch(md, st, f, b, more, g, gpc, k2) && BarrenBranches(md.c, b, more, g, k2)
    ensures Fails(CapAlts(md, st, f, g.s), DoomedBranches(b, more, g, gpc, k2))
    decreases md.limit - st.count, 1, |md.code| - f.pc, 0
  {
    hide Run, Call, Deeper, StuckBranch, BarrenBranches, KAt, Formal, Zeros, Barren, Doomed, Get, At, OpenLen;
    BranchWf(md, st, f, b, more, g, gpc, k2);
    var kb, open := In(b, g, gpc, 0, k2), f.(pc := f.pc + OpenLen(At(md.code, f.pc)));
    BranchStuck(md, st, f, b, more, g, gpc, k2);
    DDeeper(md, st, open, g.s, kb);
    var o := Deeper(md, st, open, g.s);
    if o.rc == NOMATCH {
      if more.NoAlt? {
        BranchLast(md, st, f, b, g, gpc, k2);
      } else {
        BranchNext(md, st, o.st, f, b, more, g, gpc, k2);
        DCap(md, o.st, f.(pc := f.pc + Get(md.code, f.pc + 1)), more.b, more.more, g, gpc, k2);
      }
    }
  }

  lemma BranchWf(md: Md, st: State, f: Frame, b: Nodes, more: Alts, g: Group, gpc: nat, k2: Cont)
    requires StuckBranch(md, st, f, b, more, g, gpc, k2)
    ensures Wf(md, st, f) && f.pc < |md.code|
  {
    hide KAt, BranchAt;
  }

  lemma {:induction false} DAlts(md: Md, st: State, f: Frame, b: Nodes, more: Alts, g: Group, gpc: nat, k2: Cont)
    requires StuckBranch(md, st, f, b, more, g, gpc, k2) && BarrenBranches(md.c, b, more, g, k2)
    ensures Fails(BraAlts(md, st, f, g.s), DoomedBranches(b, more, g, gpc, k2))
    decreases md.limit - st.count, 1, |md.code| - f.pc, 0
  {
    hide Run, Call, Deeper, StuckBranch, BarrenBranches, KAt, Formal, Zeros, Barren, Doomed, Get, At, OpenLen;
    BranchWf(md, st, f, b, more, g, gpc, k2);
    var kb, open := In(b, g, gpc, 0, k2), f.(pc := f.pc + OpenLen(At(md.code, f.pc)));
    BranchStuck(md, st, f, b, more, g, gpc, k2);
    if more.NoAlt? {
      BranchLast(md, st, f, b, g, gpc, k2);
      if g.s { DDeeper(md, st, open, true, kb); } else { DCall(md, st, open, false, kb); }
    } else {
      DDeeper(md, st, open, g.s, kb);
      var o := Deeper(md, st, open, g.s);
      BranchNext(md, st, st, f, b, more, g, gpc, k2);
      if o.rc == NOMATCH {
        BranchNext(md, st, o.st, f, b, more, g, gpc, k2);
        DAlts(md, o.st, f.(pc := f.pc + Get(md.code, f.pc + 1)), more.b, more.more, g, gpc, k2);
      }
    }
  }

  // ---------- kets ----------

  /** At its ket an S bracket looks empty and is left; another one is left, or entered
      again at the same place. */
  lemma {:induction false} DKet(md: Md, st: State, f: Frame, k: Cont)
    requires Stuck(md, st, f, k) && Barren(md.c, k) && k.In? && k.ns.Nil? && f.pc == k.gpc + Span(k.g)
    ensures Fails(Run(md, st, f), Doomed(k))
    decreases md.limit - st.count, 1, |md.code| - f.pc, 8
  {
    hide Run, Call, Deeper, AfterClose, KAt, Formal, Barren, Doomed, BarrenGroup, DoomedGroup, EncGroup, Has, ValidGroup, HollowGroup, Span, Zeros, Trap, KetOp, BraOp, GreedyTrap;
    var g := k.g;
    KetStuck(md, st, f, k);
    KetCode(md, f, k);
    KetRuns(md, st, f, g, k.gpc);
    var st1 := Closed(md, st, g, f.eptr);
    var f1 := f.(chain := if g.s then f.chain[1..] else f.chain,
                 top := if g.cap == 0 then f.top else KetTop(md, f.top, g.cap));
    var empty := g.s && f.eptr == f.chain[0];
    var after, again := f1.(pc := f.pc + 3), f1.(pc := k.gpc);
    CloseIs(md, st1, f1, k, empty);
    KetDoom(md.c, k);
    if g.ket == Ket || g.s {
      DRun(md, st1, after, k.k);
    } else if g.ket == KetRMin {
      DDeeper(md, st1, after, false, k.k);
      var o := Deeper(md, st1, after, false);
      if o.rc == NOMATCH {
        DGroupCall(md, o.st, again, false, g, k.k);
      }
    } else {
      DGroupDeeper(md, st1, again, false, g, k.k);
      var o := Deeper(md, st1, again, false);
      if o.rc == NOMATCH { DCall(md, o.st, after, false, k.k); }
    }
  }

  lemma KetStuck(md: Md, st: State, f: Frame, k: Cont)
    requires Stuck(md, st, f, k) && k.In? && k.ns.Nil? && f.pc == k.gpc + Span(k.g)
    ensures MdOk(md) && Wf(md, st, f) && KAt(md.code, f.pc, k) && k.g.cap < 0x1_0000
    ensures k.g.s ==> f.chain != [] && f.chain[0] == 0 == f.eptr
    ensures var f1 := f.(chain := if k.g.s then f.chain[1..] else f.chain,
                         top := if k.g.cap == 0 then f.top else KetTop(md, f.top, k.g.cap));
      forall st': State :: Wf(md, st', f) ==>
        Stuck(md, st', f1.(pc := f.pc + 3), k.k) && StuckGroup(md, st', f1.(pc := k.gpc), k.g, k.k)
  {
    hide KAt, EncGroup, Span, KetTop, ValidNodes, Has;
    KetCode(md, f, k);
  }

  lemma KetDoom(c: Ctx, k: Cont)
    requires k.In? && k.ns.Nil? && Barren(c, k)
    ensures BarrenGroup(c, k.g, k.k) && (Barren(c, k.k) || (GreedyTrap(k.g) && k.g.ket == KetRMax && !k.g.s && DoomedGroup(k.g, k.k)))
    ensures Doomed(k) ==> Doomed(k.k) || (k.g.ket != Ket && !k.g.s && DoomedGroup(k.g, k.k))
  {
  }

  /** Whatever follows, a run that enters a greedy trap on an empty subject hits a limit. */
  lemma EntersTrap(md: Md, st: State, f: Frame, g: Group, k2: Cont)
    requires StuckGroup(md, st, f, g, k2) && GreedyTrap(g)
    ensures HitLimit(Run(md, st, f))
  {
    hide Run, StuckGroup;
    DGroup(md, st, f, g, k2);
  }
}
