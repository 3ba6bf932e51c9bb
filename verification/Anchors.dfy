/** is_anchored and is_startline: patterns that need not be tried everywhere. */
module Anchors {
  import opened Bytes
  import opened Code
  import opened Layout
  import opened Semantics
  import opened Repeats
  import opened Language
  import opened Scan

  /** How every branch begins: ^ (if circ), \A (if sod), or an unlimited repeat of the
      type dot. */
  predicate Leading(ns: Nodes, dot: Byte, circ: bool, sod: bool) {
    ns.Cons? && match ns.n
      case Zero(op) => (circ && op == OP_CIRC) || (sod && op == OP_SOD)
      case Rep(x, k) => x == Type(dot) && k.Star?
      case Grp(NoPrefix, g) => !g.s && LeadingGroup(g, dot, circ, sod)
      case _ => false
  }

  predicate LeadingGroup(g: Group, dot: Byte, circ: bool, sod: bool) {
    Leading(g.b, dot, circ, sod) && LeadingAlts(g.more, dot, circ, sod)
  }

  predicate LeadingAlts(a: Alts, dot: Byte, circ: bool, sod: bool) {
    a.Alt? ==> Leading(a.b, dot, circ, sod) && LeadingAlts(a.more, dot, circ, sod)
  }

  // ---------- a match that begins later also begins earlier ----------

  /** The byte before p is one that the dot can take, and ^ does not match at p. */
  predicate Slippery(c: Ctx, dot: Byte, circ: bool, p: nat) {
    0 < p <= |c.s| && (dot == OP_ANY || dot == OP_ALLANY) && TypeOk(dot, c.s[p - 1]) &&
    (circ && c.multiline ==> c.s[p - 1] != NEWLINE)
  }

  lemma StarSlides(c: Ctx, x: Single, m: Mode, p: nat, q: nat)
    requires 0 < p <= |c.s| && AcceptsAt(c, x, p - 1) && At0(q) in AllNode(c, Rep(x, Star(m)), At0(p))
    ensures At0(q) in AllNode(c, Rep(x, Star(m)), At0(p - 1))
  {
    hide Runs, Accepts;
    var l := KindRuns(c, x, Star(m), p);
    var i :| 0 <= i < |l| && At0(p).(pos := l[i]) == At0(q);
    StarRunsSlide(c, x, m, p, q);
    var l' := KindRuns(c, x, Star(m), p - 1);
    var j :| 0 <= j < |l'| && l'[j] == q;
    hide KindRuns;
    assert AtAll(At0(p - 1), l')[j] == At0(q);
  }

  lemma StarRunsSlide(c: Ctx, x: Single, m: Mode, p: nat, q: nat)
    requires 0 < p <= |c.s| && AcceptsAt(c, x, p - 1) && q in KindRuns(c, x, Star(m), p)
    ensures q in KindRuns(c, x, Star(m), p - 1)
  {
    hide Accepts;
    if m == Possessive {
      RunsDown(c, x, -1, p);
      RunsDown(c, x, -1, p - 1);
    }
  }

  lemma {:induction false} Slides(c: Ctx, ns: Nodes, dot: Byte, circ: bool, sod: bool, p: nat, e: nat)
    requires Leading(ns, dot, circ, sod) && Slippery(c, dot, circ, p) && Ends(c, ns, p, e)
    ensures Ends(c, ns, p - 1, e)
    decreases ns, 0
  {
    EndsCons(c, ns.n, ns.rest, p, e);
    EndsCons(c, ns.n, ns.rest, p - 1, e);
    hide Ends, AllGroup, KindRuns;
    var q: nat :| q <= |c.s| && At0(q) in AllNode(c, ns.n, At0(p)) && Ends(c, ns.rest, q, e);
    match ns.n
    case Zero(op) => assert false;
    case Rep(x, k) => StarSlides(c, x, k.mode, p, q);
    case Grp(_, g) => GroupSlides(c, g, dot, circ, sod, p, q);
  }

  lemma {:induction false} GroupSlides(c: Ctx, g: Group, dot: Byte, circ: bool, sod: bool, p: nat, e: nat)
    requires LeadingGroup(g, dot, circ, sod) && Slippery(c, dot, circ, p) && EndsGroup(c, g, p, e)
    ensures EndsGroup(c, g, p - 1, e)
    decreases g, 1
  {
    hide Ends, EndsGroup;
    EndsGroupIff(c, g, p, e);
    EndsGroupIff(c, g, p - 1, e);
    if EndsOnce(c, g, p, e) {
      OnceSlides(c, g, dot, circ, sod, p, e);
    } else {
      var q: nat :| p < q <= |c.s| && EndsOnce(c, g, p, q) && EndsGroup(c, g, q, e);
      OnceSlides(c, g, dot, circ, sod, p, q);
    }
  }

  lemma {:induction false} OnceSlides(c: Ctx, g: Group, dot: Byte, circ: bool, sod: bool, p: nat, e: nat)
    requires LeadingGroup(g, dot, circ, sod) && Slippery(c, dot, circ, p) && EndsOnce(c, g, p, e)
    ensures EndsOnce(c, g, p - 1, e)
    decreases g, 0
  {
    hide Ends;
    if Ends(c, g.b, p, e) { Slides(c, g.b, dot, circ, sod, p, e); } else { AltsSlide(c, g.more, dot, circ, sod, p, e); }
  }

  lemma {:induction false} AltsSlide(c: Ctx, a: Alts, dot: Byte, circ: bool, sod: bool, p: nat, e: nat)
    requires LeadingAlts(a, dot, circ, sod) && Slippery(c, dot, circ, p) && EndsAlts(c, a, p, e)
    ensures EndsAlts(c, a, p - 1, e)
    decreases a, 1
  {
    hide Ends;
    if Ends(c, a.b, p, e) { Slides(c, a.b, dot, circ, sod, p, e); } else { AltsSlide(c, a.more, dot, circ, sod, p, e); }
  }

  // ---------- the scans ----------

  predicate IsDotStar(op: Byte) { op == OP_TYPESTAR || op == OP_TYPESTAR + 1 || op == OP_TYPESTAR + 9 }

  /** The first opcode of a branch, and the byte after it, decide. */
  lemma LeadOp(code: seq<Byte>, pc: nat, ns: Nodes, endcode: nat, nocase: bool)
    requires Standing(code, pc, [], ns, endcode, nocase) && ValidNodes(ns, nocase)
    ensures var op := At(code, pc);
      && (op == OP_BRA || op == OP_CBRA ==>
            ns.Cons? && ns.n.Grp? && ns.n.z == NoPrefix && !ns.n.g.s &&
            Has(code, pc, EncGroup(ns.n.g)) && ValidGroup(ns.n.g, nocase))
      && forall dot, circ, sod :: Leading(ns, dot, circ, sod) ==
           if op == OP_BRA || op == OP_CBRA then LeadingGroup(ns.n.g, dot, circ, sod)
           else if IsDotStar(op) then At(code, pc + 1) == dot
           else (circ && op == OP_CIRC) || (sod && op == OP_SOD)
  {
    hide Has, EncNodes, EncGroup, LeadingGroup;
    if ns.Nil? {
      BranchOver(code, pc, endcode, nocase);
    } else {
      StandOn(code, pc, ns, endcode, nocase);
      HeadOf(ns.n, nocase);
      if ns.n.Rep? && !ns.n.x.Class? {
        FamilyParts(code, pc, ns.n.x, ns.n.k);
      } else if ns.n.One? {
        OneHead(ns.n.x, nocase);
      } else if ns.n.Grp? {
        GroupHead(ns.n.z, ns.n.g);
        if ns.n.z == NoPrefix { assert EncNode(ns.n) == EncGroup(ns.n.g); }
      }
    }
  }

  lemma BranchOver(code: seq<Byte>, pc: nat, endcode: nat, nocase: bool)
    requires Standing(code, pc, [], Nil, endcode, nocase)
    ensures At(code, pc) == OP_ALT || IsKet(At(code, pc))
  {
  }

  /** What the loops over the branches keep: the branch ns opens at pc, more follow. */
  predicate Looking(code: seq<Byte>, pc: nat, ns: Nodes, more: Alts, ket: nat, nocase: bool) {
    pc < |code| && Standing(code, pc + OpLength(At(code, pc)), [], ns, ket, nocase) && ValidNodes(ns, nocase) && ValidAlts(more, nocase) &&
    Get(code, pc + 1) > 0 && Remaining(code, pc + Get(code, pc + 1), more, ket, ket, nocase)
  }

  lemma LookFirst(code: seq<Byte>, pc: nat, g: Group, nocase: bool)
    requires Has(code, pc, EncGroup(g)) && ValidGroup(g, nocase) && |code| <= MAX_PATTERN_SIZE
    ensures Looking(code, pc, g.b, g.more, pc + Span(g), nocase)
  {
    PlainGroupCoded(g, nocase);
    hide Has, EncGroup, EncNodes, EncAlts, Standing, Remaining;
    GroupAt(code, pc, g);
    StandIn(code, pc, g, pc + Span(g), nocase);
  }

  lemma LookNext(code: seq<Byte>, pc: nat, ns: Nodes, more: Alts, ket: nat, nocase: bool)
    requires Looking(code, pc, ns, more, ket, nocase)
    ensures var next := pc + Get(code, pc + 1);
      pc < next && (At(code, next) == OP_ALT <==> more.Alt?) &&
      (more.Alt? ==> next < |code| && Looking(code, next, more.b, more.more, ket, nocase))
  {
    hide Has, EncNodes, EncAlts, Standing, Remaining;
    var next := pc + Get(code, pc + 1);
    StandAlt(code, next, more, ket, ket, nocase);
    assert OpLength(OP_ALT) == 3;
  }

  /** The branches still to be looked at. */
  predicate LeadingRest(ns: Nodes, more: Alts, dot: Byte, circ: bool, sod: bool) {
    Leading(ns, dot, circ, sod) && LeadingAlts(more, dot, circ, sod)
  }

  lemma RestSteps(g: Group, ns: Nodes, more: Alts, dot: Byte, circ: bool, sod: bool)
    ensures LeadingGroup(g, dot, circ, sod) == LeadingRest(g.b, g.more, dot, circ, sod)
    ensures LeadingRest(ns, more, dot, circ, sod) ==
      (Leading(ns, dot, circ, sod) && (more.Alt? ==> LeadingRest(more.b, more.more, dot, circ, sod)))
  {
  }

  lemma LookHere(code: seq<Byte>, pc: nat, ns: Nodes, more: Alts, ket: nat, nocase: bool, dot: Byte, circ: bool, sod: bool)
    requires Looking(code, pc, ns, more, ket, nocase)
    ensures pc < |code|
    ensures var scode := pc + OpLength(At(code, pc));
      var op := At(code, scode);
      && (op == OP_BRA || op == OP_CBRA ==>
            ns.Cons? && ns.n.Grp? && Has(code, scode, EncGroup(ns.n.g)) && ValidGroup(ns.n.g, nocase))
      && Leading(ns, dot, circ, sod) ==
           if op == OP_BRA || op == OP_CBRA then LeadingGroup(ns.n.g, dot, circ, sod)
           else if IsDotStar(op) then At(code, scode + 1) == dot
           else (circ && op == OP_CIRC) || (sod && op == OP_SOD)
  {
    hide Standing, Leading, LeadingGroup, Has, EncGroup, Remaining, Get;
    LeadOp(code, pc + OpLength(At(code, pc)), ns, ket, nocase);
  }

  method IsAnchored(code: seq<Byte>, start: nat, multiline: bool, ghost g: Group, ghost nocase: bool) returns (anchored: bool)
    requires Has(code, start, EncGroup(g)) && ValidGroup(g, nocase) && |code| <= MAX_PATTERN_SIZE
    ensures anchored == LeadingGroup(g, OP_ALLANY, !multiline, true)
    decreases g
  {
    hide Has, EncGroup, Looking, Get, Leading, LeadingGroup, LeadingRest, LeadingAlts, SkipAlts;
    LookFirst(code, start, g, nocase);
    RestSteps(g, g.b, g.more, OP_ALLANY, !multiline, true);
    var pc := start;
    ghost var ket, ns, more := start + Span(g), g.b, g.more;
    while true
      invariant Looking(code, pc, ns, more, ket, nocase) && ns < g && more < g
      invariant LeadingGroup(g, OP_ALLANY, !multiline, true) == LeadingRest(ns, more, OP_ALLANY, !multiline, true)
      decreases |code| - pc
    {
      LookHere(code, pc, ns, more, ket, nocase, OP_ALLANY, !multiline, true);
      RestSteps(g, ns, more, OP_ALLANY, !multiline, true);
      var scode := pc + OpLength(At(code, pc));
      var op := At(code, scode);
      if op == OP_BRA || op == OP_CBRA {
        var inner := IsAnchored(code, scode, multiline, ns.n.g, nocase);
        if !inner { return false; }
      } else if IsDotStar(op) {
        if At(code, scode + 1) != OP_ALLANY { return false; }
      } else if op != OP_SOD && (multiline || op != OP_CIRC) {
        return false;
      }
      LookNext(code, pc, ns, more, ket, nocase);
      pc := pc + Get(code, pc + 1);
      if At(code, pc) != OP_ALT { return true; }
      ns, more := more.b, more.more;
    }
  }

  method IsStartline(code: seq<Byte>, start: nat, ghost g: Group, ghost nocase: bool) returns (startline: bool)
    requires Has(code, start, EncGroup(g)) && ValidGroup(g, nocase) && |code| <= MAX_PATTERN_SIZE
    ensures startline == LeadingGroup(g, OP_ANY, true, false)
    decreases g
  {
    hide Has, EncGroup, Looking, Get, Leading, LeadingGroup, LeadingRest, LeadingAlts, SkipAlts;
    LookFirst(code, start, g, nocase);
    RestSteps(g, g.b, g.more, OP_ANY, true, false);
    var pc := start;
    ghost var ket, ns, more := start + Span(g), g.b, g.more;
    while true
      invariant Looking(code, pc, ns, more, ket, nocase) && ns < g && more < g
      invariant LeadingGroup(g, OP_ANY, true, false) == LeadingRest(ns, more, OP_ANY, true, false)
      decreases |code| - pc
    {
      LookHere(code, pc, ns, more, ket, nocase, OP_ANY, true, false);
      RestSteps(g, ns, more, OP_ANY, true, false);
      var scode := pc + OpLength(At(code, pc));
      var op := At(code, scode);
      if op == OP_BRA || op == OP_CBRA {
        var inner := IsStartline(code, scode, ns.n.g, nocase);
        if !inner { return false; }
      } else if IsDotStar(op) {
        if At(code, scode + 1) != OP_ANY { return false; }
      } else if op != OP_CIRC {
        return false;
      }
      LookNext(code, pc, ns, more, ket, nocase);
      pc := pc + Get(code, pc + 1);
      if At(code, pc) != OP_ALT { return true; }
      ns, more := more.b, more.more;
    }
  }
}
