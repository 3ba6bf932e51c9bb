/** The end of the pattern can be reached at exactly the ends of its matches. */
module StatePaths {
  import opened Bytes
  import opened Code
  import opened Layout
  import opened Semantics
  import opened Repeats
  import opened Simulation
  import opened Correctness
  import opened Language
  import opened Scan
  import opened StateSet
  import opened StateLanguage
  import Lookbehind
  import Machine

  /** The whole pattern g, with the end marker behind its ket. */
  ghost predicate Program(code: seq<Byte>, c: Ctx, g: Group) {
    Has(code, 0, EncGroup(g)) && At(code, Span(g) + 3) == OP_END && |code| <= MAX_PATTERN_SIZE &&
    g.ket == Ket && ValidGroup(g, c.nocase) && FitGroup(c, g)
  }

  function Begin(from: nat): Conf { Conf(To(0), from) }

  function Finish(g: Group, e: nat): Conf { Conf(To(Span(g)), e) }

  // ---------- reached, so matched ----------

  /** Behind the last ket there is nothing. */
  lemma EndCont(code: seq<Byte>, c: Ctx, pc: nat, k: Cont)
    requires KAt(code, pc, k) && ContOk(c, k) && At(code, pc) == OP_END && |code| <= MAX_PATTERN_SIZE
    ensures k.Done?
  {
    if k.In? {
      if k.ns.Cons? {
        KAtStep(code, pc, k);
        ItemOk(c, k);
        Lookbehind.NotEnd(k.ns.n, c.nocase);
      } else {
        KetFields(code, c, pc, k);
      }
    }
  }

  lemma EndPlace(code: seq<Byte>, c: Ctx, ket: nat, pl: Place)
    requires PlaceOk(code, c, To(ket), pl) && At(code, ket) == OP_KET && At(code, ket + 3) == OP_END && |code| <= MAX_PATTERN_SIZE
    ensures pl.AtItems? && pl.k.In? && pl.k.ns.Nil? && pl.k.k.Done?
  {
    if pl.AtBracket? {
      GroupAt(code, ket, pl.g);
    } else if pl.k.In? {
      if pl.k.ns.Cons? {
        KAtStep(code, ket, pl.k);
        ItemOk(c, pl.k);
        PlainNodeCoded(pl.k.ns.n, c.nocase);
        StartByte(pl.k.ns.n, c.nocase);
      } else {
        KetFields(code, c, ket, pl.k);
        EndCont(code, c, ket + 3, pl.k.k);
      }
    }
  }

  lemma {:induction false} PathSound(code: seq<Byte>, c: Ctx, g: Group, path: seq<Conf>, pl: Place, e: nat)
    requires Program(code, c, g) && |path| > 0 && IsPath(code, c, Span(g), path) && path[|path| - 1] == Finish(g, e)
    requires path[0].pos <= |c.s| && PlaceOk(code, c, path[0].s, pl)
    ensures e <= |c.s| && Sem(c, pl, path[0].s.count, path[0].pos, e)
    decreases |path|
  {
    hide PlaceOk, Sem, Move, Program;
    ProgramEnd(code, c, g);
    if |path| == 1 {
      EndPlace(code, c, Span(g), pl);
      EndSem(c, pl, e);
    } else {
      assert Move(code, c, Span(g), path[0], path[1]);
      var pl' := MoveBacks(code, c, Span(g), path[0], pl, path[1]);
      var rest := path[1..];
      PathTail(code, c, Span(g), path);
      PathSound(code, c, g, rest, pl', e);
    }
  }

  lemma PathTail(code: seq<Byte>, c: Ctx, ket: nat, path: seq<Conf>)
    requires IsPath(code, c, ket, path) && |path| > 1
    ensures IsPath(code, c, ket, path[1..])
  {
    hide Move;
    var rest := path[1..];
    forall i | 0 <= i < |rest| - 1 ensures Move(code, c, ket, rest[i], rest[i + 1]) {
      assert rest[i] == path[i + 1] && rest[i + 1] == path[i + 2];
    }
  }

  lemma EndSem(c: Ctx, pl: Place, e: nat)
    requires pl.AtItems? && pl.k.In? && pl.k.ns.Nil? && pl.k.k.Done? && e <= |c.s|
    ensures Sem(c, pl, 0, e, e)
  {
    KetOn(c, pl.k, e, e);
  }

  lemma ProgramEnd(code: seq<Byte>, c: Ctx, g: Group)
    requires Program(code, c, g)
    ensures At(code, Span(g)) == OP_KET && At(code, Span(g) + 3) == OP_END && |code| <= MAX_PATTERN_SIZE
    ensures SkipAlts(code, 0) == Span(g)
    ensures PlaceOk(code, c, To(0), AtBracket(g, 0, Done))
  {
    hide EncGroup, Has, SkipAlts, EncNodes, EncAlts, Get, ValidGroup, FitGroup;
    GroupAt(code, 0, g);
    SkipGroup(code, 0, g);
  }

  /** What can be reached is the end of a match. */
  lemma ReachedMatches(code: seq<Byte>, c: Ctx, g: Group, from: nat, e: nat)
    requires Program(code, c, g) && from <= |c.s| && Leads(code, c, Span(g), Begin(from), Finish(g, e))
    ensures EndsGroup(c, g, from, e)
  {
    ProgramEnd(code, c, g);
    hide Program, Move, EndsGroup;
    var path :| |path| > 0 && IsPath(code, c, Span(g), path) && path[0] == Begin(from) && path[|path| - 1] == Finish(g, e);
    PathSound(code, c, g, path, AtBracket(g, 0, Done), e);
  }

  // ---------- matched, so reached ----------

  lemma {:induction false} RepLeads(code: seq<Byte>, c: Ctx, ket: nat, k: Cont, pc: nat, cnt: nat, p: nat, q: nat)
    requires PlaceOk(code, c, State(pc, cnt), AtItems(k)) && InRep(k) && RepOk(c, k.ns.n.x, k.ns.n.k, cnt, p, q)
    ensures Leads(code, c, ket, Conf(State(pc, cnt), p), Conf(To(pc + |EncNode(k.ns.n)|), q))
    decreases q - p
  {
    hide Move, PlaceOk, KindMoves, EncNode, Leads, Accepts, CountOk;
    var x, y := Conf(State(pc, cnt), p), Conf(To(pc + |EncNode(k.ns.n)|), q);
    RepCount(code, c, State(pc, cnt), k);
    LeadsHere(code, c, ket, y);
    var s := RepNext(c, k.ns.n.x, k.ns.n.k, pc, y.s, cnt, p, q);
    if s == y.s {
      RepGoes(code, c, ket, x, k, y);
      LeadsStep(code, c, ket, x, y, y);
    } else {
      var z := Conf(s, p + 1);
      RepGoes(code, c, ket, x, k, z);
      RepPlace(code, c, x.s, s, k);
      RepLeads(code, c, ket, k, pc, s.count, p + 1, q);
      LeadsStep(code, c, ket, x, z, y);
    }
  }

  lemma RepCount(code: seq<Byte>, c: Ctx, s: State, k: Cont)
    requires PlaceOk(code, c, s, AtItems(k)) && InRep(k)
    ensures CountOk(k.ns.n.k, s.count)
  {
  }

  lemma RepPlace(code: seq<Byte>, c: Ctx, s: State, t: State, k: Cont)
    requires PlaceOk(code, c, s, AtItems(k)) && InRep(k) && t.offset == s.offset && CountOk(k.ns.n.k, t.count)
    ensures PlaceOk(code, c, t, AtItems(k))
  {
  }

  lemma RepGoes(code: seq<Byte>, c: Ctx, ket: nat, x: Conf, k: Cont, y: Conf)
    requires PlaceOk(code, c, x.s, AtItems(k)) && InRep(k)
    requires RepMoved(c, k.ns.n.x, k.ns.n.k, x.s.count, x.pos, y, To(x.s.offset + |EncNode(k.ns.n)|), x.s.offset)
    ensures Move(code, c, ket, x, y)
  {
    RepMoveOk(code, c, ket, x, k);
    hide MovesOf, PlaceOk, KindMoves, EncNode;
  }

  /** The move that goes towards q. */
  lemma RepNext(c: Ctx, x: Single, k: Kind, pc: nat, next: State, cnt: nat, p: nat, q: nat) returns (s: State)
    requires RepOk(c, x, k, cnt, p, q) && CountOk(k, cnt) && next == To(next.offset) && next.offset != pc
    ensures if s == next then RepMoved(c, x, k, cnt, p, Conf(next, q), next, pc)
      else p < q && RepMoved(c, x, k, cnt, p, Conf(s, p + 1), next, pc) && s.offset == pc && CountOk(k, s.count) &&
           RepOk(c, x, k, s.count, p + 1, q)
  {
    hide Accepts;
    if p == q {
      s := next;
    } else if k.Query? || (k.Max() >= 0 && cnt + 1 >= k.Max()) {
      s := next;
    } else {
      s := if k.Star? then To(pc) else State(pc, cnt + 1);
    }
  }

  // ---------- whole items and brackets ----------

  lemma {:induction false} NodesLead(code: seq<Byte>, c: Ctx, ket: nat, pc: nat, k: Cont, p: nat, q: nat)
    requires KAt(code, pc, k) && ContOk(c, k) && k.In? && pc + |EncNodes(k.ns)| <= ket && |code| <= MAX_PATTERN_SIZE
    requires p <= |c.s| && Ends(c, k.ns, p, q)
    ensures Leads(code, c, ket, Conf(To(pc), p), Conf(To(pc + |EncNodes(k.ns)|), q))
    decreases |c.s| - p, |EncNodes(k.ns)|, 2
  {
    hide EncNodes, EncNode, Ends, AllNode, Leads, KAt, ContOk;
    var x := Conf(To(pc), p);
    if k.ns.Nil? {
      NilEnds(c, p, q);
      LeadsHere(code, c, ket, x);
    } else {
      EndsCons(c, k.ns.n, k.ns.rest, p, q);
      assert k.ns == Cons(k.ns.n, k.ns.rest);
      NodeFirst(k.ns);
      var r: nat :| r <= |c.s| && At0(r) in AllNode(c, k.ns.n, At0(p)) && Ends(c, k.ns.rest, r, q);
      BareNodeStays(c, k.ns.n, p, At0(r));
      PastPlace(code, c, pc, k);
      PlaceAt(code, c, pc + |EncNode(k.ns.n)|, Past(k));
      NodeLeads(code, c, ket, pc, k, p, r);
      NodesLead(code, c, ket, pc + |EncNode(k.ns.n)|, Past(k), r, q);
      LeadsTrans(code, c, ket, x, Conf(To(pc + |EncNode(k.ns.n)|), r), Conf(To(pc + |EncNodes(k.ns)|), q));
    }
  }

  lemma NilEnds(c: Ctx, p: nat, q: nat)
    requires p <= |c.s| && Ends(c, Nil, p, q)
    ensures q == p && |EncNodes(Nil)| == 0
  {
  }

  lemma {:induction false} NodeLeads(code: seq<Byte>, c: Ctx, ket: nat, pc: nat, k: Cont, p: nat, q: nat)
    requires KAt(code, pc, k) && ContOk(c, k) && k.In? && k.ns.Cons? && pc + |EncNode(k.ns.n)| <= ket && |code| <= MAX_PATTERN_SIZE
    requires p <= |c.s| && At0(q) in AllNode(c, k.ns.n, At0(p))
    ensures Leads(code, c, ket, Conf(To(pc), p), Conf(To(pc + |EncNode(k.ns.n)|), q))
    decreases |c.s| - p, |EncNodes(k.ns)|, 1
  {
    hide EncNode, Leads, KAt, ContOk, MovesOf, Accepts, ZeroOk, AllGroup, KindRuns, RepOk, EncNodes, EncGroup, EncOne, Has, Fit, FitGroup, ValidGroup, ValidNodes, ValidSingle, ValidKind, PlaceOk;
    var x, y := Conf(To(pc), p), Conf(To(pc + |EncNode(k.ns.n)|), q);
    ItemOk(c, k);
    LeadsHere(code, c, ket, y);
    match k.ns.n
    case Zero(op) =>
      ItemEnd(code, c, pc, k);
      ZeroLen(op);
      ZeroMove(code, c, ket, pc, p, op);
      LeadsStep(code, c, ket, x, y, y);
    case One(item) =>
      ItemEnd(code, c, pc, k);
      OneLen(item);
      OneMoves(code, c, ket, pc, 0, p, item);
      LeadsStep(code, c, ket, x, y, y);
    case Rep(item, kd) =>
      RepEnds(c, item, kd, p, q);
      RepStart(code, c, pc, k);
      RepLeads(code, c, ket, k, pc, 0, p, q);
    case Grp(z, g) =>
      GroupNodeLeads(code, c, ket, pc, k, p, q);
  }

  lemma ZeroLen(op: Byte)
    ensures EncNode(Zero(op)) == [op]
  {
  }

  lemma OneLen(x: Single)
    ensures EncNode(One(x)) == EncOne(x)
  {
  }

  lemma RepStart(code: seq<Byte>, c: Ctx, pc: nat, k: Cont)
    requires KAt(code, pc, k) && ContOk(c, k) && InRep(k)
    ensures PlaceOk(code, c, State(pc, 0), AtItems(k))
  {
    ItemOk(c, k);
    hide KAt, ContOk;
  }

  lemma NodeFirst(ns: Nodes)
    requires ns.Cons?
    ensures |EncNodes(ns)| == |EncNode(ns.n)| + |EncNodes(ns.rest)|
  {
    hide EncNode;
  }

  lemma {:induction false} GroupNodeLeads(code: seq<Byte>, c: Ctx, ket: nat, pc: nat, k: Cont, p: nat, q: nat)
    requires KAt(code, pc, k) && ContOk(c, k) && k.In? && k.ns.Cons? && k.ns.n.Grp? && pc + |EncNode(k.ns.n)| <= ket
    requires |code| <= MAX_PATTERN_SIZE && p <= |c.s| && At0(q) in AllNode(c, k.ns.n, At0(p))
    ensures Leads(code, c, ket, Conf(To(pc), p), Conf(To(pc + |EncNode(k.ns.n)|), q))
    decreases |c.s| - p, |EncNodes(k.ns)|, 0
  {
    hide EncNode, EncNodes, Leads, KAt, ContOk, MovesOf, EndsGroup, SkipAlts, FitGroup, ValidGroup;
    var g, z := k.ns.n.g, k.ns.n.z;
    var x, y := Conf(To(pc), p), Conf(To(pc + |EncNode(k.ns.n)|), q);
    NodeFirst(k.ns);
    BracketItem(code, c, pc, k);
    GroupNodeEnds(c, z, g, p, q);
    LeadsHere(code, c, ket, y);
    if z == NoPrefix {
      GroupLeads(code, c, ket, pc, g, Past(k), p, q);
    } else {
      PlainPlace(code, c, pc, k);
      PrefixMoves(code, c, ket, x, k);
      if z != SkipZero && EndsGroup(c, g, p, q) {
        GroupLeads(code, c, ket, pc + 1, g, Past(k), p, q);
        LeadsStep(code, c, ket, x, Conf(To(pc + 1), p), y);
      } else {
        LeadsStep(code, c, ket, x, y, y);
      }
    }
  }

  lemma PlainPlace(code: seq<Byte>, c: Ctx, pc: nat, k: Cont)
    requires KAt(code, pc, k) && ContOk(c, k) && !InRep(k)
    ensures PlaceOk(code, c, To(pc), AtItems(k))
  {
    hide KAt, ContOk;
  }

  lemma GroupNodeEnds(c: Ctx, z: Prefix, g: Group, p: nat, q: nat)
    requires p <= |c.s| && At0(q) in AllNode(c, Grp(z, g), At0(p))
    ensures if z == NoPrefix then EndsGroup(c, g, p, q) else if z == SkipZero then q == p else q == p || EndsGroup(c, g, p, q)
  {
    hide AllGroup;
  }

  lemma {:induction false} GroupLeads(code: seq<Byte>, c: Ctx, ket: nat, gpc: nat, g: Group, k: Cont, p: nat, q: nat)
    requires PlaceOk(code, c, To(gpc), AtBracket(g, gpc, k)) && gpc + Span(g) + 3 <= ket && |code| <= MAX_PATTERN_SIZE
    requires p <= |c.s| && EndsGroup(c, g, p, q)
    ensures Leads(code, c, ket, Conf(To(gpc), p), Conf(To(gpc + Span(g) + 3), q))
    decreases |c.s| - p, Span(g), 3
  {
    hide Leads, Move, EndsGroup, EndsOnce, Span, PlaceOk;
    EndsGroupIff(c, g, p, q);
    var end, x, y := gpc + Span(g), Conf(To(gpc), p), Conf(To(gpc + Span(g) + 3), q);
    LeadsHere(code, c, ket, y);
    if EndsOnce(c, g, p, q) {
      OnceLeads(code, c, ket, gpc, g, k, p, q);
      KetMoves(code, c, ket, gpc, g, k, q);
      LeadsStep(code, c, ket, Conf(To(end), q), y, y);
      LeadsTrans(code, c, ket, x, Conf(To(end), q), y);
    } else {
      var r: nat :| p < r <= |c.s| && EndsOnce(c, g, p, r) && EndsGroup(c, g, r, q);
      OnceLeads(code, c, ket, gpc, g, k, p, r);
      KetMoves(code, c, ket, gpc, g, k, r);
      GroupLeads(code, c, ket, gpc, g, k, r, q);
      LeadsStep(code, c, ket, Conf(To(end), r), Conf(To(gpc), r), y);
      LeadsTrans(code, c, ket, x, Conf(To(end), r), y);
    }
  }

  lemma KetMoves(code: seq<Byte>, c: Ctx, ket: nat, gpc: nat, g: Group, k: Cont, p: nat)
    requires PlaceOk(code, c, To(gpc), AtBracket(g, gpc, k)) && gpc + Span(g) < ket && |code| <= MAX_PATTERN_SIZE
    ensures var end := gpc + Span(g);
      Move(code, c, ket, Conf(To(end), p), Conf(To(end + 3), p)) &&
      (g.ket != Ket ==> Move(code, c, ket, Conf(To(end), p), Conf(To(gpc), p)))
  {
    hide EncGroup, Has, KAt, ContOk, MovesOf, EncNodes, EncAlts, FitGroup, ValidGroup, At, Get;
    GroupAt(code, gpc, g);
    hide Span;
    MovesAtKet(code, c, ket, To(gpc + Span(g)), p);
  }

  lemma {:induction false} OnceLeads(code: seq<Byte>, c: Ctx, ket: nat, gpc: nat, g: Group, k: Cont, p: nat, q: nat)
    requires PlaceOk(code, c, To(gpc), AtBracket(g, gpc, k)) && gpc + Span(g) <= ket && |code| <= MAX_PATTERN_SIZE
    requires p <= |c.s| && EndsOnce(c, g, p, q)
    ensures Leads(code, c, ket, Conf(To(gpc), p), Conf(To(gpc + Span(g)), q))
    decreases |c.s| - p, Span(g), 1
  {
    hide Leads, Ends, EndsAlts, MovesOf, BranchAt, BranchStarts, KAt, ContOk, ValidNodes, Fit;
    OpensAt(code, c, ket, gpc, g, 0, p);
    SpanLen(g);
    var t := AltsLead(code, c, ket, gpc, g.b, g.more, g, gpc, k, p, q);
    LeadsStep(code, c, ket, Conf(To(gpc), p), Conf(t, p), Conf(To(gpc + Span(g)), q));
  }

  lemma SpanLen(g: Group)
    ensures |EncNodes(g.b)| + |EncAlts(g.more)| < Span(g)
  {
  }

  /** The branch that matches, among b and more. */
  lemma {:induction false} AltsLead(code: seq<Byte>, c: Ctx, ket: nat, pc: nat, b: Nodes, more: Alts, g: Group, gpc: nat, k: Cont, p: nat, q: nat)
    returns (t: State)
    requires |code| <= MAX_PATTERN_SIZE && BranchAt(code, pc, b, more, g, gpc) && pc < |code| && gpc + Span(g) <= ket
    requires KAt(code, gpc + Span(g) + 3, k) && ContOk(c, k) && ValidGroup(g, c.nocase) && FitGroup(c, g)
    requires ValidNodes(b, c.nocase) && Fit(c, b) && ValidAlts(more, c.nocase) && FitAlts(c, more)
    requires p <= |c.s| && (Ends(c, b, p, q) || EndsAlts(c, more, p, q))
    ensures t in BranchStarts(code, pc) && Leads(code, c, ket, Conf(t, p), Conf(To(gpc + Span(g)), q))
    decreases |c.s| - p, |EncNodes(b)| + |EncAlts(more)|, 4
  {
    hide Leads, Ends, BranchAt, BranchStarts, KAt, ContOk, ValidGroup, FitGroup, EncNodes, Get, Span;
    StartsStep(code, c, pc, b, more, g, gpc);
    if Ends(c, b, p, q) {
      t := To(pc + Machine.OpenLen(At(code, pc)));
      BranchCode(MdOf(code, c), pc, b, more, g, gpc, 0, k);
      BranchLeads(code, c, ket, t.offset, In(b, g, gpc, 0, k), p, q);
    } else {
      assert more == Alt(more.b, more.more);
      AltLen(more.b, more.more);
      hide EncAlts;
      t := AltsLead(code, c, ket, pc + Get(code, pc + 1), more.b, more.more, g, gpc, k, p, q);
    }
  }

  /** Along a branch, and from its end to the ket. */
  lemma {:induction false} BranchLeads(code: seq<Byte>, c: Ctx, ket: nat, pc: nat, kb: Cont, p: nat, q: nat)
    requires kb.In? && KAt(code, pc, kb) && ValidNodes(kb.ns, c.nocase) && Fit(c, kb.ns) && ValidGroup(kb.g, c.nocase) && FitGroup(c, kb.g)
    requires ContOk(c, kb.k) && kb.gpc + Span(kb.g) <= ket && |code| <= MAX_PATTERN_SIZE && p <= |c.s| && Ends(c, kb.ns, p, q)
    ensures Leads(code, c, ket, Conf(To(pc), p), Conf(To(kb.gpc + Span(kb.g)), q))
    decreases |c.s| - p, |EncNodes(kb.ns)|, 3
  {
    hide *;
    var end, last := pc + |EncNodes(kb.ns)|, kb.gpc + Span(kb.g);
    BranchEnd(code, c, ket, pc, kb, q);
    ContIn(c, kb);
    NodesLead(code, c, ket, pc, kb, p, q);
    LeadsTrans(code, c, ket, Conf(To(pc), p), Conf(To(end), q), Conf(To(last), q));
  }

  lemma ContIn(c: Ctx, k: Cont)
    requires k.In? && ValidNodes(k.ns, c.nocase) && Fit(c, k.ns) && ValidGroup(k.g, c.nocase) && FitGroup(c, k.g) && ContOk(c, k.k)
    ensures ContOk(c, k)
  {
  }

  /** From the end of a branch an ALT leads to the ket. */
  lemma BranchEnd(code: seq<Byte>, c: Ctx, ket: nat, pc: nat, k: Cont, q: nat)
    requires KAt(code, pc, k) && k.In?
    ensures var end, last := pc + |EncNodes(k.ns)|, k.gpc + Span(k.g);
      end <= last && Leads(code, c, ket, Conf(To(end), q), Conf(To(last), q))
  {
    hide *;
    var end, last := pc + |EncNodes(k.ns)|, k.gpc + Span(k.g);
    BranchEndAt(code, pc, k);
    LeadsHere(code, c, ket, Conf(To(last), q));
    if end != last {
      AltMove(code, c, ket, end, last, q);
      LeadsStep(code, c, ket, Conf(To(end), q), Conf(To(last), q), Conf(To(last), q));
    }
  }

  lemma BranchEndAt(code: seq<Byte>, pc: nat, k: Cont)
    requires KAt(code, pc, k) && k.In?
    ensures var end, last := pc + |EncNodes(k.ns)|, k.gpc + Span(k.g);
      end <= last && (end != last ==> At(code, end) == OP_ALT && SkipAlts(code, end) == last)
  {
  }

  lemma AltMove(code: seq<Byte>, c: Ctx, ket: nat, pc: nat, last: nat, p: nat)
    requires At(code, pc) == OP_ALT && SkipAlts(code, pc) == last
    ensures Move(code, c, ket, Conf(To(pc), p), Conf(To(last), p))
  {
  }

  /** The end of a match is reached. */
  lemma MatchesReached(code: seq<Byte>, c: Ctx, g: Group, from: nat, e: nat)
    requires Program(code, c, g) && from <= |c.s| && EndsGroup(c, g, from, e)
    ensures Leads(code, c, Span(g), Begin(from), Finish(g, e))
  {
    EndsGroupIff(c, g, from, e);
    ProgramEnd(code, c, g);
    hide EndsOnce, Leads, PlaceOk;
    OnceLeads(code, c, Span(g), 0, g, Done, from, e);
  }

  /** The end of the pattern is reached exactly at the ends of its matches. */
  lemma ReachedIff(code: seq<Byte>, c: Ctx, g: Group, from: nat, e: nat)
    requires Program(code, c, g) && from <= |c.s|
    ensures Leads(code, c, Span(g), Begin(from), Finish(g, e)) <==> EndsGroup(c, g, from, e)
  {
    hide Program, Leads, EndsGroup;
    if Leads(code, c, Span(g), Begin(from), Finish(g, e)) { ReachedMatches(code, c, g, from, e); }
    if EndsGroup(c, g, from, e) { MatchesReached(code, c, g, from, e); }
  }

  // ---------- the opcodes that are reached ----------

  lemma {:induction false} PathPlace(code: seq<Byte>, c: Ctx, g: Group, path: seq<Conf>) returns (pl: Place)
    requires Program(code, c, g) && |path| > 0 && IsPath(code, c, Span(g), path)
    requires path[0].s == To(0) && path[0].pos <= |c.s|
    ensures PlaceOk(code, c, path[|path| - 1].s, pl) && path[|path| - 1].pos <= |c.s|
    ensures Rooted(pl) && Keeps(AtBracket(g, 0, Done), pl)
    decreases |path|
  {
    ProgramEnd(code, c, g);
    hide PlaceOk, Move, Program, SkipAlts, Sem;
    if |path| == 1 {
      pl := AtBracket(g, 0, Done);
    } else {
      var init, n := path[..|path| - 1], |path|;
      PathInit(code, c, Span(g), path);
      var pl0 := PathPlace(code, c, g, init);
      assert init[|init| - 1] == path[n - 2];
      assert Move(code, c, Span(g), path[n - 2], path[n - 2 + 1]);
      pl := MoveBacks(code, c, Span(g), path[n - 2], pl0, path[n - 1]);
    }
  }

  /** No state counts further than the repeats of the pattern allow. */
  lemma ReachedTallied(code: seq<Byte>, c: Ctx, g: Group, from: nat, x: Conf, m: nat)
    requires Program(code, c, g) && from <= |c.s| && Leads(code, c, Span(g), Begin(from), x) && TalliedGroup(g, m)
    ensures x.s.count <= m
  {
    ProgramEnd(code, c, g);
    hide Program, Move, PlaceOk, SkipAlts, IsPath, TalliedGroup;
    var path :| |path| > 0 && IsPath(code, c, Span(g), path) && path[0] == Begin(from) && path[|path| - 1] == x;
    var pl := PathPlace(code, c, g, path);
    assert TalliedPlace(AtBracket(g, 0, Done), m);
    PlaceTallied(code, c, x.s, pl, m);
  }

  lemma PlaceTallied(code: seq<Byte>, c: Ctx, s: State, pl: Place, m: nat)
    requires PlaceOk(code, c, s, pl) && TalliedPlace(pl, m)
    ensures s.count <= m
  {
    hide KAt, EncNodes, EncGroup, Has;
  }

  lemma PathInit(code: seq<Byte>, c: Ctx, ket: nat, path: seq<Conf>)
    requires IsPath(code, c, ket, path) && |path| > 1
    ensures IsPath(code, c, ket, path[..|path| - 1])
  {
    hide Move;
    var init := path[..|path| - 1];
    forall i | 0 <= i < |init| - 1 ensures Move(code, c, ket, init[i], init[i + 1]) {
      assert init[i] == path[i] && init[i + 1] == path[i + 1];
    }
  }

  lemma NodeSupported(n: Node, nocase: bool)
    requires ValidNode(n, nocase)
    ensures Supported(EncNode(n)[0])
  {
    match n
    case Zero(_) =>
    case One(x) => OneHead(x, nocase);
    case Rep(x, k) => if x.Class? { ClassHead(x, k, nocase); } else { FamilyHead(x, k); }
    case Grp(z, g) => GroupHead(z, g);
  }

  /** No state that is reached stands on an opcode which the engine does not support. */
  lemma ReachedSupported(code: seq<Byte>, c: Ctx, g: Group, from: nat, x: Conf)
    requires Program(code, c, g) && from <= |c.s| && Leads(code, c, Span(g), Begin(from), x)
    ensures Supported(At(code, x.s.offset))
  {
    ProgramEnd(code, c, g);
    hide Program, Move, PlaceOk, Supported, SkipAlts, IsPath;
    var path :| |path| > 0 && IsPath(code, c, Span(g), path) && path[0] == Begin(from) && path[|path| - 1] == x;
    var pl := PathPlace(code, c, g, path);
    PlaceSupported(code, c, x.s, pl);
  }

  lemma PlaceSupported(code: seq<Byte>, c: Ctx, s: State, pl: Place)
    requires PlaceOk(code, c, s, pl) && Rooted(pl) && |code| <= MAX_PATTERN_SIZE
    ensures Supported(At(code, s.offset))
  {
    hide KAt, EncNode, EncNodes, EncGroup, Has, SkipAlts;
    if pl.AtBracket? {
      GroupAt(code, s.offset, pl.g);
    } else if pl.k.ns.Cons? {
      ItemEnd(code, c, s.offset, pl.k);
      ItemOk(c, pl.k);
      NodeSupported(pl.k.ns.n, c.nocase);
    } else {
      KetFields(code, c, s.offset, pl.k);
    }
  }
}
