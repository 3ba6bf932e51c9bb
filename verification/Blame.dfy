/** When pcre_exec says that the vector is too small: match() goes nowhere that the states
    of internal_dfa_exec do not reach, so one of them stands at the ket of a group that
    has no room. */
module Blame {
  import opened Bytes
  import opened Code
  import opened Layout
  import opened Semantics
  import opened Repeats
  import opened Machine
  import opened Simulation
  import opened Correctness
  import opened Pattern
  import opened Lowering
  import opened StateSet
  import opened StateLanguage
  import StateRun
  import opened StatePaths
  import opened StateMatches
  import opened FirstByte
  import opened Study
  import opened Bumpalong
  import StateRoom
  import Scan
  import Theorems

  /** The ket of a capturing group that has no room in the vector. */
  predicate Roomless(md: Md, pc: nat) {
    var prev: int := pc - Get(md.code, pc + 1);
    OP_KET <= At(md.code, pc) <= OP_KETRMIN && prev >= 0 && At(md.code, prev) in {OP_CBRA, OP_SCBRA} &&
    !(0 < 2 * Get(md.code, prev + 3) < md.OffsetMax())
  }

  /** A state that internal_dfa_exec reaches from the start of the match. */
  ghost predicate Held(md: Md, g: Group, pc: nat, p: nat) {
    p <= |md.c.s| && Leads(md.code, Loose(md.c), Span(g), Begin(md.mstart), Conf(To(pc), p))
  }

  ghost predicate Blamed(md: Md, g: Group) { exists pc: nat, p: nat :: Roomless(md, pc) && Held(md, g, pc, p) }

  /** match() may be at pc and p. */
  ghost predicate Visits(md: Md, g: Group, pc: nat, p: nat) { At(md.code, pc) == OP_END || Held(md, g, pc, p) }

  ghost predicate Compiled(md: Md, g: Group) { Program(md.code, Loose(md.c), g) && md.mstart <= |md.c.s| }

  ghost predicate Sound(md: Md, g: Group, st: Machine.State, f: Frame) {
    Wf(md, st, f) && Compiled(md, g) && Visits(md, g, f.pc, f.eptr)
  }

  ghost predicate Claim(md: Md, g: Group, st: Machine.State, o: Out) { o.st.overflow && !st.overflow ==> Blamed(md, g) }

  /** A move of a state takes match() along. */
  lemma Onward(md: Md, g: Group, pc: nat, p: nat, pc': nat, p': nat)
    requires Visits(md, g, pc, p) && At(md.code, pc) != OP_END && p' <= |md.c.s|
    requires Move(md.code, Loose(md.c), Span(g), Conf(To(pc), p), Conf(To(pc'), p'))
    ensures Visits(md, g, pc', p')
  {
    hide Move, Leads;
    StateRun.LeadsOn(md.code, Loose(md.c), Span(g), Begin(md.mstart), Conf(To(pc), p), Conf(To(pc'), p'));
  }

  lemma Stays(md: Md, g: Group, pc: nat, p: nat, pc': nat)
    requires Visits(md, g, pc, p) && At(md.code, pc) != OP_END && p <= |md.c.s|
    requires To(pc') in MovesOf(md.code, Loose(md.c), Span(g), To(pc), p).active
    ensures Visits(md, g, pc', p)
  {
    hide MovesOf, Visits;
    Onward(md, g, pc, p, pc', p);
  }

  // ---------- repeats ----------

  /** The item whose opcode is at pc. */
  lemma ItemAt(md: Md, g: Group, pc: nat, p: nat) returns (k: Cont)
    requires Compiled(md, g) && Held(md, g, pc, p) && IsRepeatOp(At(md.code, pc))
    ensures PlaceOk(md.code, Loose(md.c), To(pc), AtItems(k)) && k.In? && k.ns.Cons? && (k.ns.n.One? || k.ns.n.Rep?)
    ensures |md.code| <= MAX_PATTERN_SIZE
  {
    ProgramEnd(md.code, Loose(md.c), g);
    hide Program, Move, PlaceOk, SkipAlts, IsPath, IsRepeatOp;
    var path :| |path| > 0 && IsPath(md.code, Loose(md.c), Span(g), path) && path[0] == Begin(md.mstart) && path[|path| - 1] == Conf(To(pc), p);
    var pl := PathPlace(md.code, Loose(md.c), g, path);
    ItemPlace(md, pc, pl);
    k := pl.k;
  }

  lemma ItemPlace(md: Md, pc: nat, pl: Place)
    requires PlaceOk(md.code, Loose(md.c), To(pc), pl) && Rooted(pl) && |md.code| <= MAX_PATTERN_SIZE && IsRepeatOp(At(md.code, pc))
    ensures pl.AtItems? && pl.k.In? && pl.k.ns.Cons? && (pl.k.ns.n.One? || pl.k.ns.n.Rep?)
  {
    hide KAt, EncNode, EncNodes, EncGroup, Has, SkipAlts;
    if pl.AtBracket? {
      GroupAt(md.code, pc, pl.g);
    } else if pl.k.ns.Cons? {
      ItemEnd(md.code, Loose(md.c), pc, pl.k);
      ItemOk(Loose(md.c), pl.k);
      NodeIsItem(pl.k.ns.n, md.c.nocase);
    } else {
      KetFields(md.code, Loose(md.c), pc, pl.k);
    }
  }

  lemma NodeIsItem(n: Node, nocase: bool)
    requires ValidNode(n, nocase) && IsRepeatOp(EncNode(n)[0])
    ensures n.One? || n.Rep?
  {
    if n.Grp? { Scan.GroupHead(n.z, n.g); }
    hide EncGroup;
  }

  /** Where a repeat may end: all it takes is accepted, as often as it may, and a
      possessive one takes all it can. */
  predicate Stop(c: Ctx, d: Repeat, p: nat, e: nat) {
    p <= e <= |c.s| && (forall j :: p <= j < e ==> AcceptsAt(c, d.x, j)) && d.min <= e - p && (d.max < 0 || e - p <= d.max) &&
    (d.poss ==> !AcceptsAt(c, d.x, e) || (d.max >= 0 && e - p == d.max))
  }

  lemma RepeatVisits(md: Md, g: Group, pc: nat, p: nat, e: nat)
    requires Compiled(md, g) && Held(md, g, pc, p) && IsRepeatOp(At(md.code, pc)) && Stop(md.c, DecodeRepeat(md, pc), p, e)
    ensures Visits(md, g, DecodeRepeat(md, pc).next, e)
  {
    hide Program, DecodeRepeat, IsRepeatOp, PlaceOk, Leads;
    var k := ItemAt(md, g, pc, p);
    ItemLeads(md, g, pc, k, p, e);
    LeadsTrans(md.code, Loose(md.c), Span(g), Begin(md.mstart), Conf(To(pc), p), Conf(To(DecodeRepeat(md, pc).next), e));
  }

  lemma ItemLeads(md: Md, g: Group, pc: nat, k: Cont, p: nat, e: nat)
    requires PlaceOk(md.code, Loose(md.c), To(pc), AtItems(k)) && k.In? && k.ns.Cons? && (k.ns.n.One? || k.ns.n.Rep?)
    requires |md.code| <= MAX_PATTERN_SIZE && p <= |md.c.s| && Stop(md.c, DecodeRepeat(md, pc), p, e)
    ensures Leads(md.code, Loose(md.c), Span(g), Conf(To(pc), p), Conf(To(DecodeRepeat(md, pc).next), e))
  {
    hide DecodeRepeat, Leads, KAt, ContOk, EncNode, Has, MovesOf, EncOne, EncRep;
    var c, n, ket := Loose(md.c), k.ns.n, Span(g);
    ItemEnd(md.code, c, pc, k);
    ItemOk(c, k);
    var next := Conf(To(pc + |EncNode(n)|), e);
    if n.One? {
      OneLen(n.x);
      DecodeOne(md, pc, n.x);
      OneMoves(md.code, c, ket, pc, 0, p, n.x);
      StopAfterOne(md.c, n.x, next.s.offset, p, e);
      LeadsHere(md.code, c, ket, next);
      LeadsStep(md.code, c, ket, Conf(To(pc), p), next, next);
    } else {
      RepLen(n.x, n.k);
      DecodeRep(md, pc, n.x, n.k);
      StopIsEnd(md.c, n.x, n.k, next.s.offset, p, e);
      RepLeads(md.code, c, ket, k, pc, 0, p, e);
    }
  }

  lemma StopAfterOne(c: Ctx, x: Single, next: nat, p: nat, e: nat)
    requires Stop(c, Repeat(x, 1, 1, false, false, next), p, e)
    ensures e == p + 1 && AcceptsAt(Loose(c), x, p)
  {
    hide Accepts;
    assert AcceptsAt(c, x, p);
  }

  lemma StopIsEnd(c: Ctx, x: Single, k: Kind, next: nat, p: nat, e: nat)
    requires Stop(c, Repeat(x, k.Min(), k.Max(), k.M() == Lazy, k.M() == Possessive, next), p, e)
    ensures RepOk(Loose(c), x, k, 0, p, e)
  {
    hide Accepts;
    forall j | p <= j < e ensures Accepts(x, c.s[j]) { assert AcceptsAt(c, x, j); }
  }

  lemma RepLen(x: Single, k: Kind)
    ensures EncNode(Rep(x, k)) == EncRep(x, k)
  {
  }

  lemma {:induction false} LongestIs(c: Ctx, x: Single, pos: nat, n: int)
    requires pos <= |c.s|
    ensures var e := Longest(c, x, pos, n);
      (forall j :: pos <= j < e ==> AcceptsAt(c, x, j)) && (n < 0 || e - pos <= n) && (!AcceptsAt(c, x, e) || (n >= 0 && e - pos == n))
    decreases |c.s| - pos
  {
    hide Accepts;
    if n != 0 && AcceptsAt(c, x, pos) { LongestIs(c, x, pos + 1, if n < 0 then n else n - 1); }
  }

  lemma {:induction false} MinIs(c: Ctx, x: Single, pos: nat, n: nat)
    requires MinOk(c, x, pos, n)
    ensures forall j :: pos <= j < pos + n ==> AcceptsAt(c, x, j)
    decreases n
  {
    hide Accepts;
    if n > 0 { MinIs(c, x, pos + 1, n - 1); }
  }

  // ---------- the run ----------

  lemma {:induction false} CallBlames(md: Md, g: Group, st: Machine.State, f: Frame, cbe: bool)
    requires Sound(md, g, st, f)
    ensures Claim(md, g, st, Call(md, st, f, cbe))
    decreases md.limit - st.count, 0, 0
  {
    hide Run, Visits, Compiled, Blamed;
    if st.count < md.limit && f.rdepth < md.rlimit {
      RunBlames(md, g, st.(count := st.count + 1), if cbe then f.(chain := [f.eptr] + f.chain) else f);
    }
  }

  lemma {:induction false} DeeperBlames(md: Md, g: Group, st: Machine.State, f: Frame, cbe: bool)
    requires Sound(md, g, st, f)
    ensures Claim(md, g, st, Deeper(md, st, f, cbe))
    decreases md.limit - st.count, 0, 1
  {
    hide Call, Visits, Compiled, Blamed;
    CallBlames(md, g, st, f.(rdepth := f.rdepth + 1), cbe);
  }

  /** The moves that match() makes with one opcode. */
  lemma PlainMoves(md: Md, g: Group, pc: nat, p: nat)
    ensures var m, op := MovesOf(md.code, Loose(md.c), Span(g), To(pc), p), At(md.code, pc);
      (op in {OP_SOD, OP_EODN, OP_EOD, OP_CIRC, OP_DOLL} && ZeroOk(md.c, op, p) ==> To(pc + 1) in m.active) &&
      (op == OP_ALT ==> To(SkipAlts(md.code, pc)) in m.active) &&
      (op in {OP_BRA, OP_SBRA, OP_CBRA, OP_SCBRA} ==> m.active == BranchStarts(md.code, pc)) &&
      (op in {OP_BRAZERO, OP_BRAMINZERO, OP_SKIPZERO} ==> To(SkipAlts(md.code, pc + 1) + 3) in m.active) &&
      (op in {OP_BRAZERO, OP_BRAMINZERO} ==> To(pc + 1) in m.active)
  {
    hide SkipAlts, BranchStarts, FamilyOf, RepeatMoves, ClassMoves, AcceptsAt;
  }

  lemma {:induction false} RunBlames(md: Md, g: Group, st: Machine.State, f: Frame)
    requires Sound(md, g, st, f)
    ensures Claim(md, g, st, Run(md, st, f))
    decreases md.limit - st.count, 1, |md.code| - f.pc, 2
  {
    hide Call, Deeper, RunRepeat, RunBra, RunKet, DecodeRepeat, SkipAlts, Get, Compiled, Blamed, MovesOf, BranchStarts, ZeroOk;
    var pc, p := f.pc, f.eptr;
    var op := At(md.code, pc);
    PlainMoves(md, g, pc, p);
    hide Visits;
    if op in {OP_SOD, OP_EODN, OP_EOD, OP_CIRC, OP_DOLL} {
      if ZeroOk(md.c, op, p) {
        Stays(md, g, pc, p, pc + 1);
        RunBlames(md, g, st, f.(pc := pc + 1));
      }
    } else if IsRepeatOp(op) {
      NextFits(md, pc);
      RepeatBlames(md, g, st, f);
    } else if op == OP_CBRA || op == OP_SCBRA || op == OP_BRA || op == OP_SBRA {
      BraBlames(md, g, st, f);
    } else if op == OP_ALT {
      if SkipAlts(md.code, pc) != pc {
        Stays(md, g, pc, p, SkipAlts(md.code, pc));
        RunBlames(md, g, st, f.(pc := SkipAlts(md.code, pc)));
      }
    } else if op == OP_BRAZERO || op == OP_BRAMINZERO {
      var after := SkipAlts(md.code, pc + 1) + 3;
      Stays(md, g, pc, p, after);
      Stays(md, g, pc, p, pc + 1);
      if op == OP_BRAZERO { EitherBlames(md, g, st, f, pc + 1, after); } else { EitherBlames(md, g, st, f, after, pc + 1); }
    } else if op == OP_SKIPZERO {
      var after := SkipAlts(md.code, pc + 1) + 3;
      Stays(md, g, pc, p, after);
      RunBlames(md, g, st, f.(pc := after));
    } else if OP_KET <= op <= OP_KETRMIN {
      KetBlames(md, g, st, f);
    }
  }

  lemma NextFits(md: Md, pc: nat)
    requires IsRepeatOp(At(md.code, pc))
    ensures pc < |md.code| && pc < DecodeRepeat(md, pc).next
  {
  }

  /** One way on, and if it fails another. */
  lemma {:induction false} EitherBlames(md: Md, g: Group, st: Machine.State, f: Frame, first: nat, second: nat)
    requires Wf(md, st, f) && Compiled(md, g) && Visits(md, g, first, f.eptr) && Visits(md, g, second, f.eptr)
    requires f.pc < |md.code| && f.pc < second
    ensures var o := Deeper(md, st, f.(pc := first), false);
      Claim(md, g, st, if o.rc != NOMATCH then o else Run(md, o.st, f.(pc := second)))
    decreases md.limit - st.count, 1, |md.code| - f.pc, 1
  {
    hide Run, Deeper, Visits, Compiled, Blamed;
    DeeperBlames(md, g, st, f.(pc := first), false);
    var o := Deeper(md, st, f.(pc := first), false);
    if o.rc == NOMATCH { RunBlames(md, g, o.st, f.(pc := second)); }
  }

  lemma {:induction false} RepeatBlames(md: Md, g: Group, st: Machine.State, f: Frame)
    requires Sound(md, g, st, f) && IsRepeatOp(At(md.code, f.pc)) && f.pc < |md.code| && f.pc < DecodeRepeat(md, f.pc).next
    ensures Claim(md, g, st, RunRepeat(md, st, f, DecodeRepeat(md, f.pc)))
    decreases md.limit - st.count, 1, |md.code| - f.pc, 1
  {
    hide Run, RunRepeat, Lazily, WalkBack, Longest, MinOk, DecodeRepeat, IsRepeatOp, Compiled, Blamed, Claim, Held, Visits, Stop, AcceptsAt;
    var d, pc, p := DecodeRepeat(md, f.pc), f.pc, f.eptr;
    NoEnd(md, g, pc, p);
    RangeFits(md, g, pc, p);
    if MinOk(md.c, d.x, p, d.min) {
      var first := p + d.min;
      MinEnds(md.c, d.x, p, d.min);
      var h, n := f.(eptr := first, pc := d.next), if d.max < 0 then -1 else d.max - d.min;
      var last := Longest(md.c, d.x, first, n);
      RunTaken(md, st, f, d, first);
      MinIs(md.c, d.x, p, d.min);
      forall e: nat | first <= e <= last && (d.poss ==> e == last) ensures Visits(md, g, d.next, e) {
        TakenStops(md.c, d, p, e);
        RepeatVisits(md, g, pc, p, e);
      }
      ExactLast(md.c, d, first);
      if d.min == d.max {
        RunBlames(md, g, st, h);
      } else if d.lazy {
        LazilyBlames(md, g, st, h, d, d.min, pc, p);
      } else if d.poss {
        RunBlames(md, g, st, h.(eptr := last));
      } else {
        WalkBlames(md, g, st, h.(eptr := last), first);
      }
    } else {
      NoMinimum(md, st, f, d);
      ClaimNone(md, g, st, Out(NOMATCH, st));
    }
  }

  lemma NoEnd(md: Md, g: Group, pc: nat, p: nat)
    requires IsRepeatOp(At(md.code, pc)) && Visits(md, g, pc, p)
    ensures Held(md, g, pc, p)
  {
    hide Held;
  }

  lemma NoMinimum(md: Md, st: Machine.State, f: Frame, d: Repeat)
    requires Wf(md, st, f) && f.pc < |md.code| && f.pc < d.next && !MinOk(md.c, d.x, f.eptr, d.min)
    ensures RunRepeat(md, st, f, d) == Out(NOMATCH, st)
  {
    hide Run, Lazily, WalkBack, Longest, MinOk;
  }

  lemma ExactLast(c: Ctx, d: Repeat, first: nat)
    requires first <= |c.s|
    ensures d.min == d.max ==> Longest(c, d.x, first, 0) == first
  {
  }

  /** Every position between the minimum and the last one is an end of the repeat. */
  lemma TakenStops(c: Ctx, d: Repeat, p: nat, e: nat)
    requires p + d.min <= |c.s| && (forall j :: p <= j < p + d.min ==> AcceptsAt(c, d.x, j)) && (d.max < 0 || d.min <= d.max)
    requires var last := Longest(c, d.x, p + d.min, if d.max < 0 then -1 else d.max - d.min);
      p + d.min <= e <= last && (d.poss ==> e == last)
    ensures Stop(c, d, p, e)
  {
    hide Longest, Accepts;
    LongestIs(c, d.x, p + d.min, if d.max < 0 then -1 else d.max - d.min);
  }

  /** The bounds of a repeat, and that an exact or lazy one is not possessive. */
  lemma RangeFits(md: Md, g: Group, pc: nat, p: nat)
    requires Compiled(md, g) && Held(md, g, pc, p) && IsRepeatOp(At(md.code, pc))
    ensures var d := DecodeRepeat(md, pc); (d.max < 0 || d.min <= d.max) && (d.lazy ==> !d.poss)
  {
    var k := ItemAt(md, g, pc, p);
    hide Compiled, Held, DecodeRepeat, IsRepeatOp, KAt, ContOk, EncNode, Has, EncOne, EncRep;
    ItemEnd(md.code, Loose(md.c), pc, k);
    ItemOk(Loose(md.c), k);
    if k.ns.n.One? {
      OneLen(k.ns.n.x);
      DecodeOne(md, pc, k.ns.n.x);
    } else {
      RepLen(k.ns.n.x, k.ns.n.k);
      DecodeRep(md, pc, k.ns.n.x, k.ns.n.k);
    }
  }

  lemma {:induction false} LazilyBlames(md: Md, g: Group, st: Machine.State, f: Frame, d: Repeat, fi: nat, pc: nat, p: nat)
    requires Wf(md, st, f) && Compiled(md, g) && Held(md, g, pc, p) && IsRepeatOp(At(md.code, pc)) && d == DecodeRepeat(md, pc)
    requires f.pc == d.next && f.eptr == p + fi && d.min <= fi && (d.max < 0 || fi <= d.max) && !d.poss
    requires forall j :: p <= j < f.eptr ==> AcceptsAt(md.c, d.x, j)
    ensures Claim(md, g, st, Lazily(md, st, f, d, fi))
    decreases md.limit - st.count, 1, |md.code| - f.pc, 3, |md.c.s| - f.eptr
  {
    hide Run, Deeper, Compiled, Held, Blamed, Visits, DecodeRepeat, IsRepeatOp, Accepts;
    RepeatVisits(md, g, pc, p, f.eptr);
    DeeperBlames(md, g, st, f, false);
    var o := Deeper(md, st, f, false);
    if o.rc == NOMATCH && !(d.max >= 0 && fi >= d.max) && AcceptsAt(md.c, d.x, f.eptr) {
      LazilyBlames(md, g, o.st, f.(eptr := f.eptr + 1), d, fi + 1, pc, p);
    }
  }

  lemma {:induction false} WalkBlames(md: Md, g: Group, st: Machine.State, f: Frame, pp: nat)
    requires Wf(md, st, f) && Compiled(md, g) && forall e: nat :: pp <= e <= f.eptr ==> Visits(md, g, f.pc, e)
    ensures Claim(md, g, st, WalkBack(md, st, f, pp))
    decreases md.limit - st.count, 1, |md.code| - f.pc, 3, f.eptr
  {
    hide Run, Deeper, Compiled, Blamed, Visits;
    if pp <= f.eptr {
      DeeperBlames(md, g, st, f, false);
      var o := Deeper(md, st, f, false);
      if o.rc == NOMATCH && f.eptr > 0 { WalkBlames(md, g, o.st, f.(eptr := f.eptr - 1), pp); }
    }
  }

  // ---------- brackets ----------

  /** The first items of the branches from pc on may be visited. */
  ghost predicate Opens(md: Md, g: Group, pc: nat, p: nat) { forall t :: t in BranchStarts(md.code, pc) ==> Visits(md, g, t.offset, p) }

  lemma OpensHere(md: Md, g: Group, pc: nat, p: nat)
    requires Opens(md, g, pc, p)
    ensures Visits(md, g, pc + OpenLen(At(md.code, pc)), p)
    ensures var next := pc + Get(md.code, pc + 1); At(md.code, next) == OP_ALT && next != pc ==> Opens(md, g, next, p)
  {
    hide Visits, Get;
    var next, t := pc + Get(md.code, pc + 1), To(pc + OpenLen(At(md.code, pc)));
    assert t in BranchStarts(md.code, pc);
  }

  lemma BranchesOpen(md: Md, g: Group, pc: nat, p: nat)
    requires Visits(md, g, pc, p) && At(md.code, pc) in {OP_BRA, OP_SBRA, OP_CBRA, OP_SCBRA} && p <= |md.c.s|
    ensures Opens(md, g, pc, p)
  {
    PlainMoves(md, g, pc, p);
    StateRoom.StartsPlainAt(md.code, pc);
    hide Visits, MovesOf, BranchStarts;
    forall t | t in BranchStarts(md.code, pc) ensures Visits(md, g, t.offset, p) {
      assert t == To(t.offset);
      Stays(md, g, pc, p, t.offset);
    }
  }

  lemma {:induction false} BraBlames(md: Md, g: Group, st: Machine.State, f: Frame)
    requires Sound(md, g, st, f) && f.pc < |md.code| && At(md.code, f.pc) in {OP_BRA, OP_SBRA, OP_CBRA, OP_SCBRA}
    ensures Claim(md, g, st, RunBra(md, st, f))
    decreases md.limit - st.count, 1, |md.code| - f.pc, 1
  {
    hide Run, Call, Deeper, CapAlts, BraAlts, Compiled, Blamed, Visits, Opens, Get, Restore;
    BranchesOpen(md, g, f.pc, f.eptr);
    var op, n := md.code[f.pc], Get(md.code, f.pc + 3);
    if (op == OP_CBRA || op == OP_SCBRA) && 0 < 2 * n < md.OffsetMax() {
      CapBlames(md, g, st.(vec := st.vec[md.offsetEnd - n := f.eptr]), f, op >= OP_SBRA);
    } else {
      AltsBlame(md, g, st, f, op >= OP_SBRA);
    }
  }

  lemma {:induction false} CapBlames(md: Md, g: Group, st: Machine.State, f: Frame, cbe: bool)
    requires Wf(md, st, f) && Compiled(md, g) && Opens(md, g, f.pc, f.eptr)
    ensures Claim(md, g, st, CapAlts(md, st, f, cbe))
    decreases md.limit - st.count, 1, |md.code| - f.pc, 0
  {
    hide Run, Deeper, Compiled, Blamed, Visits, Opens, Get;
    OpensHere(md, g, f.pc, f.eptr);
    var in_ := f.(pc := f.pc + OpenLen(At(md.code, f.pc)));
    DeeperBlames(md, g, st, in_, cbe);
    var o, next := Deeper(md, st, in_, cbe), f.pc + Get(md.code, f.pc + 1);
    if o.rc == NOMATCH && f.pc < next && At(md.code, next) == OP_ALT { CapBlames(md, g, o.st, f.(pc := next), cbe); }
  }

  lemma {:induction false} AltsBlame(md: Md, g: Group, st: Machine.State, f: Frame, cbe: bool)
    requires Wf(md, st, f) && Compiled(md, g) && Opens(md, g, f.pc, f.eptr)
    ensures Claim(md, g, st, BraAlts(md, st, f, cbe))
    decreases md.limit - st.count, 1, |md.code| - f.pc, 0
  {
    hide Run, Call, Deeper, Compiled, Blamed, Visits, Opens, Get;
    OpensHere(md, g, f.pc, f.eptr);
    var in_, next := f.(pc := f.pc + OpenLen(At(md.code, f.pc))), f.pc + Get(md.code, f.pc + 1);
    CallBlames(md, g, st, in_, false);
    DeeperBlames(md, g, st, in_, cbe);
    var o := Deeper(md, st, in_, cbe);
    if o.rc == NOMATCH && At(md.code, next) == OP_ALT && next != f.pc { AltsBlame(md, g, o.st, f.(pc := next), cbe); }
  }

  /** Behind the ket, and back at the bracket if the ket repeats. */
  lemma KetVisits(md: Md, g: Group, pc: nat, p: nat)
    requires Compiled(md, g) && Visits(md, g, pc, p) && OP_KET <= At(md.code, pc) <= OP_KETRMIN && p <= |md.c.s|
    ensures Visits(md, g, pc + 3, p)
    ensures var back := Get(md.code, pc + 1); At(md.code, pc) != OP_KET && back <= pc ==> Visits(md, g, pc - back, p)
  {
    hide MovesOf, Get, Program, Held, PlaceOk, SkipAlts, Span, At;
    ProgramEnd(md.code, Loose(md.c), g);
    hide Compiled;
    if pc != Span(g) {
      MovesAtKet(md.code, Loose(md.c), Span(g), To(pc), p);
      hide Visits;
      Stays(md, g, pc, p, pc + 3);
      var back := Get(md.code, pc + 1);
      if At(md.code, pc) != OP_KET && back <= pc { Stays(md, g, pc, p, pc - back); }
    }
  }

  lemma {:induction false} KetBlames(md: Md, g: Group, st: Machine.State, f: Frame)
    requires Sound(md, g, st, f) && f.pc < |md.code| && OP_KET <= At(md.code, f.pc) <= OP_KETRMIN
    ensures Claim(md, g, st, RunKet(md, st, f))
    decreases md.limit - st.count, 1, |md.code| - f.pc, 1
  {
    hide AfterClose, Get, Compiled, Held, KetTop, KetState, Blamed, Claim, Roomless;
    KetVisits(md, g, f.pc, f.eptr);
    assert Held(md, g, f.pc, f.eptr);
    hide Visits;
    var prev: int := f.pc - Get(md.code, f.pc + 1);
    var bra := At(md.code, prev);
    var s, cap := bra == OP_SBRA || bra == OP_SCBRA, bra == OP_CBRA || bra == OP_SCBRA;
    if !(prev < 0 || !(s || cap || bra == OP_BRA) || (s && f.chain == [])) {
      var n := Get(md.code, prev + 3);
      var st1 := if cap then KetState(md, st, n, f.eptr) else st;
      var f1 := f.(chain := if s then f.chain[1..] else f.chain, top := if cap then KetTop(md, f.top, n) else f.top);
      if cap { KetFlag(md, g, st, f, n); }
      CloseBlames(md, g, st1, f1, prev, s, s && f.eptr == f.chain[0]);
      ClaimOn(md, g, st, st1, AfterClose(md, st1, f1, prev, s, s && f.eptr == f.chain[0]));
    }
    ClaimNone(md, g, st, RunKet(md, st, f));
  }

  /** Closing a group sets the flag only where it has no room. */
  lemma KetFlag(md: Md, g: Group, st: Machine.State, f: Frame, n: nat)
    requires Wf(md, st, f) && Held(md, g, f.pc, f.eptr) && OP_KET <= At(md.code, f.pc) <= OP_KETRMIN
    requires var prev: int := f.pc - Get(md.code, f.pc + 1); prev >= 0 && At(md.code, prev) in {OP_CBRA, OP_SCBRA} && n == Get(md.code, prev + 3)
    ensures KetState(md, st, n, f.eptr).overflow && !st.overflow ==> Blamed(md, g)
  {
    hide Held, Get;
    if !(0 < 2 * n < md.OffsetMax()) { assert Roomless(md, f.pc); }
  }

  lemma ClaimOn(md: Md, g: Group, st: Machine.State, st1: Machine.State, o: Out)
    requires Claim(md, g, st1, o) && (st1.overflow && !st.overflow ==> Blamed(md, g))
    ensures Claim(md, g, st, o)
  {
    hide Blamed;
  }

  lemma ClaimNone(md: Md, g: Group, st: Machine.State, o: Out)
    ensures o.st.overflow == st.overflow ==> Claim(md, g, st, o)
  {
  }

  lemma {:induction false} CloseBlames(md: Md, g: Group, st: Machine.State, f: Frame, prev: nat, s: bool, empty: bool)
    requires Wf(md, st, f) && Compiled(md, g) && f.pc < |md.code| && Visits(md, g, f.pc + 3, f.eptr)
    requires md.code[f.pc] != OP_KET ==> Visits(md, g, prev, f.eptr)
    ensures Claim(md, g, st, AfterClose(md, st, f, prev, s, empty))
    decreases md.limit - st.count, 1, |md.code| - f.pc, 0
  {
    hide Run, Call, Deeper, Compiled, Blamed, Visits;
    var after, again := f.(pc := f.pc + 3), f.(pc := prev);
    if md.code[f.pc] == OP_KET || empty {
      RunBlames(md, g, st, after);
    } else if md.code[f.pc] == OP_KETRMIN {
      DeeperBlames(md, g, st, after, false);
      var o := Deeper(md, st, after, false);
      if o.rc == NOMATCH {
        if s { DeeperBlames(md, g, o.st, again, true); } else { CallBlames(md, g, o.st, again, false); }
      }
    } else {
      DeeperBlames(md, g, st, again, s);
      var o := Deeper(md, st, again, s);
      if o.rc == NOMATCH { CallBlames(md, g, o.st, after, false); }
    }
  }

  // ---------- the pattern and the search ----------

  /** When a call of match() for a compiled pattern sets overflow, a state of
      internal_dfa_exec from the same start stands at the ket of a group without room. */
  lemma MatchBlames(md: Md, st: Machine.State, b: Branch, more: Branches)
    requires Theorems.Compilable(b, more, md.c.nocase) && md.code == EncProgram(Compile(b, more, md.c.nocase))
    requires md.offsetEnd % 3 == 0 && |st.vec| == md.offsetEnd && st.count <= md.limit && md.mstart <= |md.c.s|
    ensures Claim(md, Compile(b, more, md.c.nocase), st, Call(md, st, Theorems.Begin(md), false))
  {
    hide Theorems.Compilable, EncProgram, Compile, FitGroup, Program, Call, Claim, Leads, Fit, FitAlts, DollarAgrees;
    BranchesValid(b, more, md.c.nocase);
    var g := Compile(b, more, md.c.nocase);
    NeverLoose(md.c);
    LooseFitGroup(Loose(md.c), g);
    CompiledProgram(Loose(md.c), b, more);
    LeadsHere(md.code, Loose(md.c), Span(g), Begin(md.mstart));
    CallBlames(md, g, st, Theorems.Begin(md), false);
  }

  lemma NeverLoose(c: Ctx)
    ensures DollarAgrees(Loose(c))
  {
  }

  /** The same for the search: one of the starts that it has tried is to blame. */
  ghost predicate SomeBlamed(md: Md, g: Group, lo: nat, hi: nat) {
    exists p: nat :: lo <= p <= hi && p <= |md.c.s| && Blamed(md.(mstart := p), g)
  }

  ghost predicate PatternBlamed(md: Md, b: Branch, more: Branches, lo: nat, hi: nat) {
    ValidBranch(b, md.c.nocase) && ValidMore(more, md.c.nocase) && SomeBlamed(md, Compile(b, more, md.c.nocase), lo, hi)
  }

  ghost predicate Ready(md: Md, st: Machine.State, b: Branch, more: Branches, resetCount: nat) {
    Sized(md, st, resetCount) && Theorems.Compilable(b, more, md.c.nocase) && md.code == EncProgram(Compile(b, more, md.c.nocase))
  }

  lemma {:induction false} SearchBlames(md: Md, st: Machine.State, info: Info, forced: bool, startOffset: nat, resetCount: nat,
                                        study: Option<Map>, start: nat, reqPtr: int, b: Branch, more: Branches)
    requires Ready(md, st, b, more, resetCount) && start <= |md.c.s|
    ensures var e := SearchFrom(md, st, info, forced, startOffset, resetCount, study, start, reqPtr);
      e.st.overflow && !st.overflow ==> PatternBlamed(md, b, more, start, e.start)
    decreases |md.c.s| - start
  {
    hide Call, AdvanceTo, ReqScan, Cleared, Theorems.Compilable, EncProgram, Compile, Blamed, ValidBranch, ValidMore;
    BranchesValid(b, more, md.c.nocase);
    var c, anchored := md.c, info.anchored || forced;
    var st1 := st.(vec := Cleared(st.vec, resetCount));
    var at := AdvanceTo(c, info, anchored, study, startOffset, start);
    var (missing, ptr) := ReqScan(c, info, anchored, at, reqPtr);
    StartsUp(md, st, info, forced, startOffset, resetCount, study, start, reqPtr);
    if !missing {
      MatchBlames(md.(mstart := at), st1.(count := 0), b, more);
      var o := Call(md.(mstart := at), st1.(count := 0), Theorems.Begin(md.(mstart := at)), false);
      if o.rc == NOMATCH && !anchored && at + 1 <= |c.s| {
        StartsUp(md, o.st, info, forced, startOffset, resetCount, study, at + 1, ptr);
        SearchBlames(md, o.st, info, forced, startOffset, resetCount, study, at + 1, ptr, b, more);
      }
    }
  }

  lemma BranchesValid(b: Branch, more: Branches, nocase: bool)
    requires Theorems.Compilable(b, more, nocase)
    ensures ValidBranch(b, nocase) && ValidMore(more, nocase)
  {
  }

  lemma StartsUp(md: Md, st: Machine.State, info: Info, forced: bool, startOffset: nat, resetCount: nat,
                 study: Option<Map>, start: nat, reqPtr: int)
    requires Sized(md, st, resetCount) && start <= |md.c.s|
    ensures AdvanceTo(md.c, info, info.anchored || forced, study, startOffset, start) <=
            SearchFrom(md, st, info, forced, startOffset, resetCount, study, start, reqPtr).start
    decreases |md.c.s| - start
  {
    hide Call, ReqScan, Cleared;
    var c, anchored := md.c, info.anchored || forced;
    var st1 := st.(vec := Cleared(st.vec, resetCount));
    var at := AdvanceTo(c, info, anchored, study, startOffset, start);
    var (missing, ptr) := ReqScan(c, info, anchored, at, reqPtr);
    if !missing {
      var o := Call(md.(mstart := at), st1.(count := 0), Theorems.Begin(md.(mstart := at)), false);
      if o.rc == NOMATCH && !anchored && at + 1 <= |c.s| {
        StartsUp(md, o.st, info, forced, startOffset, resetCount, study, at + 1, ptr);
      }
    }
  }
}
