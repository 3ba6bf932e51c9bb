/** The states that can be reached on compiled code are those of its language. */
module StateLanguage {
  import opened Bytes
  import opened Code
  import opened Layout
  import opened Semantics
  import opened Repeats
  import Machine
  import opened Simulation
  import opened Correctness
  import opened Language
  import opened StateSet
  import FirstByte
  import Lookbehind

  // ---------- which items ----------

  /** No $ on which the two engines differ. */
  predicate Fit(c: Ctx, ns: Nodes) {
    match ns
    case Nil => true
    case Cons(n, rest) => FitNode(c, n) && Fit(c, rest)
  }

  predicate FitNode(c: Ctx, n: Node) {
    match n
    case Zero(op) => op == OP_DOLL ==> DollarAgrees(c)
    case One(_) => true
    case Rep(_, _) => true
    case Grp(_, g) => FitGroup(c, g)
    case Once(ns) => Fit(c, ns)
  }

  /** Where PCRE_DOLLAR_ENDONLY makes no difference. */
  predicate DollarAgrees(c: Ctx) { !c.endonly || c.multiline || c.noteol || |c.s| == 0 || !NewlineAt(c, |c.s| - 1) }

  /** On all other subjects the engines differ on $ in front of the last newline. */
  lemma DollarIff(c: Ctx)
    ensures DollarAgrees(c) <==> forall p: nat :: ZeroMoves(c, OP_DOLL, p) == ZeroOk(c, OP_DOLL, p)
  {
    if !DollarAgrees(c) {
      var p: nat := |c.s| - 1;
      assert ZeroMoves(c, OP_DOLL, p) != ZeroOk(c, OP_DOLL, p);
    }
  }

  predicate FitGroup(c: Ctx, g: Group) { Fit(c, g.b) && FitAlts(c, g.more) }

  predicate FitAlts(c: Ctx, a: Alts) { a.Alt? ==> Fit(c, a.b) && FitAlts(c, a.more) }

  // ---------- repeats ----------

  /** With cnt taken before p, the repeat can end at q. */
  predicate RepOk(c: Ctx, x: Single, k: Kind, cnt: nat, p: nat, q: nat) {
    p <= q <= |c.s| && (forall j :: p <= j < q ==> Accepts(x, c.s[j])) &&
    k.Min() <= cnt + (q - p) && (k.Max() < 0 || cnt + (q - p) <= k.Max()) && (k.M() == Possessive ==> Stops(c, x, k, cnt + (q - p), q))
  }

  /** A repeat that has taken cnt can take no more at q. */
  predicate Stops(c: Ctx, x: Single, k: Kind, cnt: nat, q: nat) { !AcceptsAt(c, x, q) || (k.Max() >= 0 && cnt == k.Max()) }

  predicate CountOk(k: Kind, cnt: nat) {
    if k.Star? || k.Query? then cnt == 0 else k.Max() < 0 || cnt < k.Max()
  }

  lemma RunsIff(c: Ctx, x: Single, min: nat, max: int, lazy: bool, p: nat, q: nat)
    requires p <= |c.s|
    ensures q in Runs(c, x, min, max, lazy, p) <==>
      p <= q <= |c.s| && (forall j :: p <= j < q ==> Accepts(x, c.s[j])) && min <= q - p && (max < 0 || q - p <= max)
  {
    hide Accepts;
    var l := Runs(c, x, min, max, lazy, p);
    if q in l {
      var i :| 0 <= i < |l| && l[i] == q;
      FirstByte.RunsAccept(c, x, min, max, lazy, p, i);
      if max >= 0 { Lookbehind.RunsAtMost(c, x, min, max, lazy, p, i); }
    } else if p <= q <= |c.s| && (forall j :: p <= j < q ==> Accepts(x, c.s[j])) && min <= q - p && (max < 0 || q - p <= max) {
      RunsReach(c, x, min, max, lazy, p, q);
    }
  }

  /** The first choice of a greedy repeat takes all it can. */
  lemma {:induction false} RunsFirst(c: Ctx, x: Single, min: nat, max: int, p: nat)
    requires p <= |c.s| && Runs(c, x, min, max, false, p) != []
    ensures var q := Runs(c, x, min, max, false, p)[0];
      p <= q <= |c.s| && (!AcceptsAt(c, x, q) || (max >= 0 && q - p == max))
    decreases |c.s| - p
  {
    hide Accepts;
    if max != 0 && AcceptsAt(c, x, p) {
      var more := Runs(c, x, if min > 0 then min - 1 else 0, if max < 0 then max else max - 1, false, p + 1);
      if more != [] { RunsFirst(c, x, if min > 0 then min - 1 else 0, if max < 0 then max else max - 1, p + 1); }
      assert Runs(c, x, min, max, false, p) == if min > 0 then more else more + [p];
      if min == 0 { RunsReach(c, x, 0, if max < 0 then max else max - 1, false, p + 1, p + 1); }
    }
  }

  lemma KindRunsIff(c: Ctx, x: Single, k: Kind, p: nat, q: nat)
    requires p <= |c.s|
    ensures q in KindRuns(c, x, k, p) <==> RepOk(c, x, k, 0, p, q)
  {
    hide Runs, Accepts;
    RunsIff(c, x, k.Min(), k.Max(), k.M() == Lazy, p, q);
    var l := Runs(c, x, k.Min(), k.Max(), k.M() == Lazy, p);
    if k.M() == Possessive && l != [] {
      FirstStops(c, x, k, p);
      hide KindRuns;
      if RepOk(c, x, k, 0, p, q) { OneStop(c, x, k, p, q, l[0]); }
    }
  }

  lemma FirstStops(c: Ctx, x: Single, k: Kind, p: nat)
    requires p <= |c.s| && k.M() == Possessive && Runs(c, x, k.Min(), k.Max(), false, p) != []
    ensures RepOk(c, x, k, 0, p, Runs(c, x, k.Min(), k.Max(), false, p)[0])
  {
    hide Runs, Accepts;
    var l := Runs(c, x, k.Min(), k.Max(), false, p);
    RunsFirst(c, x, k.Min(), k.Max(), p);
    RunsIff(c, x, k.Min(), k.Max(), false, p, l[0]);
  }

  lemma OneStop(c: Ctx, x: Single, k: Kind, p: nat, q: nat, r: nat)
    requires k.M() == Possessive && RepOk(c, x, k, 0, p, q) && RepOk(c, x, k, 0, p, r)
    ensures q == r
  {
    hide Accepts;
  }

  lemma RepEnds(c: Ctx, x: Single, k: Kind, p: nat, q: nat)
    requires p <= |c.s|
    ensures At0(q) in AllNode(c, Rep(x, k), At0(p)) <==> RepOk(c, x, k, 0, p, q)
  {
    KindRunsIff(c, x, k, p, q);
    hide Runs, Accepts, RepOk;
    var l := KindRuns(c, x, k, p);
    assert AllNode(c, Rep(x, k), At0(p)) == AtAll(At0(p), l);
    hide KindRuns;
    if q in l {
      var i :| 0 <= i < |l| && l[i] == q;
      assert AtAll(At0(p), l)[i] == At0(q);
    }
  }

  /** The moves of a repeat, by its kind: pc is its place, and next the place after it. */
  function KindMoves(k: Kind, pc: nat, next: nat, cnt: nat, ok: bool): Moves {
    var more, hold := State(pc, cnt + 1), k.M() == Possessive && ok;
    match k
    case Star(_) => Moves(if hold then [] else [To(next)], if ok then [To(pc)] else [])
    case Plus(_) => Moves(if cnt > 0 && !hold then [To(next)] else [], if ok then [more] else [])
    case Query(_) => Moves(if hold then [] else [To(next)], if ok then [To(next)] else [])
    case Upto(_, n) => Moves(if hold then [] else [To(next)], if ok then [if cnt + 1 >= n then To(next) else more] else [])
    case Exact(n) => Moves([], if ok then [if cnt + 1 >= n then To(next) else more] else [])
    case Range(_, min, max) =>
      Moves(if cnt >= min then [To(next)] else [], if ok then [if max >= 0 && cnt + 1 >= max then To(next) else more] else [])
  }

  lemma FamilyMoves(code: seq<Byte>, c: Ctx, ket: nat, pc: nat, cnt: nat, p: nat, x: Single, k: Kind)
    requires Has(code, pc, EncRep(x, k)) && ValidSingle(x, c.nocase) && ValidKind(x, k) && !x.Class?
    ensures MovesOf(code, c, ket, State(pc, cnt), p) == KindMoves(k, pc, pc + |EncRep(x, k)|, cnt, AcceptsAt(c, x, p))
  {
    hide EncRep, Has, MovesOf, KindMoves, RepeatMoves, Get, At, AcceptsAt, KindOffset, KindCount, FamilyOf;
    FamilyItem(code, c, pc, x, k);
    EncRepLen(x, k);
    MovesAtFamily(code, c, ket, State(pc, cnt), p);
    KindIs(code, State(pc, cnt), x, k, AcceptsAt(c, x, p));
  }

  /** The parts of a repeat in the code. */
  lemma FamilyItem(code: seq<Byte>, c: Ctx, pc: nat, x: Single, k: Kind)
    requires Has(code, pc, EncRep(x, k)) && ValidSingle(x, c.nocase) && ValidKind(x, k) && !x.Class?
    ensures OP_STAR <= At(code, pc) < OP_CRSTAR && (At(code, pc) as int - OP_STAR as int) % 13 == KindOffset(k)
    ensures FamilyOf(code, c.nocase, pc) == x && (k.Upto? || k.Exact? ==> Get(code, pc + 1) == k.n)
  {
    FamilyParts(code, pc, x, k);
    FamilyOp(At(code, pc), Family(x), KindOffset(k));
    if k.Upto? || k.Exact? { HasLink(code, pc + 1, k.n); }
    hide EncRep, Has;
  }

  lemma KindIs(code: seq<Byte>, s: State, x: Single, k: Kind, ok: bool)
    requires ValidKind(x, k) && !x.Class? && (k.Upto? || k.Exact? ==> Get(code, s.offset + 1) == k.n)
    ensures RepeatMoves(code, s, KindOffset(k), ok) == KindMoves(k, s.offset, s.offset + 2 + |KindCount(k)|, s.count, ok)
  {
    hide Get;
  }

  lemma ClassRepMoves(code: seq<Byte>, c: Ctx, ket: nat, pc: nat, cnt: nat, p: nat, x: Single, k: Kind)
    requires Has(code, pc, EncRep(x, k)) && ValidSingle(x, c.nocase) && ValidKind(x, k) && x.Class?
    ensures MovesOf(code, c, ket, State(pc, cnt), p) == KindMoves(k, pc, pc + |EncRep(x, k)|, cnt, AcceptsAt(c, x, p))
  {
    ClassRepBits(code, pc, x, k);
    Lookbehind.RepParts(code, pc, x, k, c.nocase);
    hide EncRep, Has, Get, Accepts, SkipAlts, BranchStarts;
  }

  lemma ClassRepBits(code: seq<Byte>, pc: nat, x: Single, k: Kind)
    requires Has(code, pc, EncRep(x, k)) && x.Class? && |x.bits| == 32
    ensures pc + 33 <= |code| && code[pc] in {OP_CLASS, OP_NCLASS} && Class(code[pc] == OP_NCLASS, code[pc + 1..pc + 33]) == x
    ensures |EncRep(x, k)| == |KindCount(k)| + 34
  {
    EncRepLen(x, k);
    HasSplit3(code, pc, EncOne(x), [OP_CRSTAR + KindOffset(k)], KindCount(k));
    ClassBits(code, pc, x);
  }

  /** One item, not repeated. */
  lemma OneMoves(code: seq<Byte>, c: Ctx, ket: nat, pc: nat, cnt: nat, p: nat, x: Single)
    requires Has(code, pc, EncOne(x)) && ValidSingle(x, c.nocase) && !IsClassRepeatOp(At(code, pc + |EncOne(x)|))
    ensures MovesOf(code, c, ket, State(pc, cnt), p) == Moves([], if AcceptsAt(c, x, p) then [To(pc + |EncOne(x)|)] else [])
  {
    HasAt(code, pc, EncOne(x), 0);
    if x.Class? { ClassBits(code, pc, x); } else if !x.Type? { HasAt(code, pc, EncOne(x), 1); }
  }

  // ---------- from a move back to the language ----------

  /** Where a state stands: before items, or at a bracket that k follows. */
  datatype Place = AtItems(k: Cont) | AtBracket(g: Group, gpc: nat, k: Cont)

  predicate InRep(k: Cont) { k.In? && k.ns.Cons? && k.ns.n.Rep? }

  function Past(k: Cont): Cont
    requires k.In? && k.ns.Cons?
  {
    k.(ns := k.ns.rest)
  }

  ghost predicate Sem(c: Ctx, pl: Place, cnt: nat, p: nat, e: nat)
    requires p <= |c.s|
  {
    match pl
    case AtBracket(g, _, k) => cnt == 0 && exists q: nat :: q <= |c.s| && EndsGroup(c, g, p, q) && Rest(c, k, q, e)
    case AtItems(k) =>
      if InRep(k) then exists q: nat :: q <= |c.s| && RepOk(c, k.ns.n.x, k.ns.n.k, cnt, p, q) && Rest(c, Past(k), q, e)
      else cnt == 0 && Rest(c, k, p, e)
  }

  ghost predicate ContOk(c: Ctx, k: Cont) {
    k.In? ==> ValidNodes(k.ns, c.nocase) && Fit(c, k.ns) && ValidGroup(k.g, c.nocase) && FitGroup(c, k.g) && ContOk(c, k.k)
  }

  ghost predicate PlaceOk(code: seq<Byte>, c: Ctx, s: State, pl: Place) {
    match pl
    case AtBracket(g, gpc, k) =>
      gpc == s.offset && s.count == 0 && Has(code, gpc, EncGroup(g)) && KAt(code, gpc + Span(g) + 3, k) &&
      ValidGroup(g, c.nocase) && FitGroup(c, g) && ContOk(c, k)
    case AtItems(k) =>
      KAt(code, s.offset, k) && ContOk(c, k) && if InRep(k) then CountOk(k.ns.n.k, s.count) else s.count == 0
  }

  lemma RestStep(c: Ctx, k: Cont, p: nat, q: nat, e: nat)
    requires k.In? && k.ns.Cons? && p <= |c.s| && q <= |c.s|
    requires At0(q) in AllNode(c, k.ns.n, At0(p)) && Rest(c, Past(k), q, e)
    ensures Rest(c, k, p, e)
  {
    var r: nat, r': nat :| r <= |c.s| && r' <= |c.s| && Ends(c, k.ns.rest, q, r) && Again(c, k.g, r, r') && Rest(c, k.k, r', e);
    EndsCons(c, k.ns.n, k.ns.rest, p, r);
  }

  /** A place before items, entered afresh. */
  lemma Fresh(c: Ctx, k: Cont, p: nat, e: nat)
    requires p <= |c.s| && ContOk(c, k) && Sem(c, AtItems(k), 0, p, e)
    ensures Rest(c, k, p, e)
  {
    hide Rest, RepOk, AllNode;
    if InRep(k) {
      ItemOk(c, k);
      var q: nat :| q <= |c.s| && RepOk(c, k.ns.n.x, k.ns.n.k, 0, p, q) && Rest(c, Past(k), q, e);
      RepEnds(c, k.ns.n.x, k.ns.n.k, p, q);
      RestStep(c, k, p, q, e);
    }
  }

  /** The outermost bracket of k is the one at the start of the code. */
  predicate RootedCont(k: Cont) { k.In? && if k.k.Done? then k.gpc == 0 else RootedCont(k.k) }

  predicate Rooted(pl: Place) {
    match pl
    case AtItems(k) => RootedCont(k)
    case AtBracket(_, gpc, k) => if k.Done? then gpc == 0 else RootedCont(k)
  }

  /** No repeat can count beyond m. */
  predicate Tallied(ns: Nodes, m: nat) {
    match ns
    case Nil => true
    case Cons(n, rest) => (n.Rep? ==> Tallies(n.k, m)) && (n.Grp? ==> TalliedGroup(n.g, m)) && Tallied(rest, m)
  }

  predicate Tallies(k: Kind, m: nat) { k.Star? || k.Query? || 0 < k.Max() <= m + 1 }

  predicate TalliedGroup(g: Group, m: nat) { Tallied(g.b, m) && TalliedAlts(g.more, m) }

  predicate TalliedAlts(a: Alts, m: nat) {
    match a
    case NoAlt => true
    case Alt(b, more) => Tallied(b, m) && TalliedAlts(more, m)
  }

  predicate TalliedCont(k: Cont, m: nat) { k.In? ==> Tallied(k.ns, m) && TalliedGroup(k.g, m) && TalliedCont(k.k, m) }

  predicate TalliedPlace(pl: Place, m: nat) {
    match pl
    case AtItems(k) => TalliedCont(k, m)
    case AtBracket(g, _, k) => TalliedGroup(g, m) && TalliedCont(k, m)
  }

  ghost predicate Keeps(pl: Place, pl': Place) {
    (Rooted(pl) ==> Rooted(pl')) && forall m: nat :: TalliedPlace(pl, m) ==> TalliedPlace(pl', m)
  }

  lemma KeepsPast(k: Cont)
    requires k.In? && k.ns.Cons?
    ensures Keeps(AtItems(k), AtItems(Past(k)))
    ensures k.ns.n.Grp? ==> forall gpc: nat :: Keeps(AtItems(k), AtBracket(k.ns.n.g, gpc, Past(k)))
  {
  }

  lemma KeepsKet(k: Cont)
    requires k.In?
    ensures forall m: nat :: TalliedCont(k, m) ==> TalliedCont(k.k, m) && TalliedGroup(k.g, m)
  {
  }

  lemma {:induction false} TalliedAlt(a: Alts, b: Nodes, m: nat)
    requires IsAlt(a, b) && TalliedAlts(a, m)
    ensures Tallied(b, m)
    decreases a
  {
    if b != a.b { TalliedAlt(a.more, b, m); }
  }

  lemma KeepsBranch(g: Group, b: Nodes, gpc: nat, k: Cont)
    requires IsBranch(g, b)
    ensures Keeps(AtBracket(g, gpc, k), AtItems(In(b, g, gpc, 0, k)))
  {
    hide Tallied, IsAlt;
    forall m: nat | TalliedPlace(AtBracket(g, gpc, k), m) ensures TalliedPlace(AtItems(In(b, g, gpc, 0, k)), m) {
      if b != g.b { TalliedAlt(g.more, b, m); }
    }
  }

  /** A state for the place pl', after the move. */
  ghost predicate Backs(code: seq<Byte>, c: Ctx, x: Conf, pl: Place, y: Conf, pl': Place) {
    PlaceOk(code, c, y.s, pl') && x.pos <= |c.s| && y.pos <= |c.s| && Keeps(pl, pl') &&
    forall e: nat :: Sem(c, pl', y.s.count, y.pos, e) ==> Sem(c, pl, x.s.count, x.pos, e)
  }

  lemma ItemOk(c: Ctx, k: Cont)
    requires ContOk(c, k) && k.In? && k.ns.Cons?
    ensures ValidNode(k.ns.n, c.nocase) && FitNode(c, k.ns.n) && ContOk(c, Past(k))
  {
  }

  /** The place behind the first item of k. */
  lemma PastPlace(code: seq<Byte>, c: Ctx, pc: nat, k: Cont)
    requires KAt(code, pc, k) && ContOk(c, k) && k.In? && k.ns.Cons?
    ensures PlaceOk(code, c, To(pc + |EncNode(k.ns.n)|), AtItems(Past(k)))
  {
    KAtStep(code, pc, k);
    hide KAt, ContOk, EncNode;
    ItemOk(c, k);
    if InRep(Past(k)) { ItemOk(c, Past(k)); }
  }

  /** Going on behind the first item of k, which matched from x.pos to y.pos. */
  lemma PassedItem(code: seq<Byte>, c: Ctx, x: Conf, k: Cont, y: Conf)
    requires PlaceOk(code, c, x.s, AtItems(k)) && k.In? && k.ns.Cons? && !InRep(k) && x.pos <= |c.s| && y.pos <= |c.s|
    requires y.s == To(x.s.offset + |EncNode(k.ns.n)|) && At0(y.pos) in AllNode(c, k.ns.n, At0(x.pos))
    ensures Backs(code, c, x, AtItems(k), y, AtItems(Past(k)))
  {
    hide KAt, Rest, AllNode, RepOk, EncNode, ContOk;
    PastPlace(code, c, x.s.offset, k);
    KeepsPast(k);
    hide Keeps;
    ItemOk(c, k);
    forall e: nat | Sem(c, AtItems(Past(k)), 0, y.pos, e) ensures Sem(c, AtItems(k), 0, x.pos, e) {
      Fresh(c, Past(k), y.pos, e);
      RestStep(c, k, x.pos, y.pos, e);
    }
  }

  lemma RepMoveOk(code: seq<Byte>, c: Ctx, ket: nat, x: Conf, k: Cont)
    requires PlaceOk(code, c, x.s, AtItems(k)) && InRep(k)
    ensures var n := k.ns.n;
      MovesOf(code, c, ket, x.s, x.pos) ==
        KindMoves(n.k, x.s.offset, x.s.offset + |EncNode(n)|, x.s.count, AcceptsAt(c, n.x, x.pos))
  {
    hide MovesOf, KAt, ContOk, KindMoves, EncRep, Has;
    ItemOk(c, k);
    KAtStep(code, x.s.offset, k);
    assert x.s == State(x.s.offset, x.s.count);
    if k.ns.n.x.Class? {
      ClassRepMoves(code, c, ket, x.s.offset, x.s.count, x.pos, k.ns.n.x, k.ns.n.k);
    } else {
      FamilyMoves(code, c, ket, x.s.offset, x.s.count, x.pos, k.ns.n.x, k.ns.n.k);
    }
  }

  lemma RepBacks(code: seq<Byte>, c: Ctx, ket: nat, x: Conf, k: Cont, y: Conf) returns (pl: Place)
    requires PlaceOk(code, c, x.s, AtItems(k)) && InRep(k) && Move(code, c, ket, x, y) && x.pos <= |c.s|
    ensures Backs(code, c, x, AtItems(k), y, pl)
  {
    hide MovesOf, Move, KAt, Rest, EncNode, ContOk, CountOk, RepOk, Keeps, Sem, Backs, PlaceOk, RepMoved, ValidKind;
    RepFacts(code, c, ket, x, k, y);
    if y.s == To(x.s.offset + |EncNode(k.ns.n)|) {
      pl := AtItems(Past(k));
      RepGone(code, c, x, k, y);
    } else {
      pl := AtItems(k);
      RepAgain(code, c, x, k, y);
    }
  }

  /** What a move of the repeat at the head of k is. */
  ghost predicate AtRep(code: seq<Byte>, c: Ctx, x: Conf, k: Cont, y: Conf) {
    InRep(k) && x.pos <= |c.s| && KAt(code, x.s.offset, k) && ContOk(c, k) && ContOk(c, Past(k)) &&
    var n := k.ns.n;
    RepMoved(c, n.x, n.k, x.s.count, x.pos, y, To(x.s.offset + |EncNode(n)|), x.s.offset) &&
    CountOk(n.k, x.s.count) && |EncNode(n)| > 0 && (n.k.Range? ==> n.k.mode != Possessive && (n.k.max < 0 || n.k.min <= n.k.max))
  }

  lemma RepGone(code: seq<Byte>, c: Ctx, x: Conf, k: Cont, y: Conf)
    requires AtRep(code, c, x, k, y) && y.s == To(x.s.offset + |EncNode(k.ns.n)|)
    ensures Backs(code, c, x, AtItems(k), y, AtItems(Past(k)))
  {
    hide KAt, Rest, EncNode, ContOk, CountOk, RepOk, Keeps, Sem, Backs, PlaceOk, RepMoved, ValidKind;
    var n := k.ns.n;
    KeepsPast(k);
    RepDone(c, n.x, n.k, x.s.count, x.pos, y, y.s, x.s.offset);
    PastPlace(code, c, x.s.offset, k);
    RepSem(c, k, x.s.count, x.pos, y.pos);
    BacksIs(code, c, x, AtItems(k), y, AtItems(Past(k)));
  }

  lemma RepAgain(code: seq<Byte>, c: Ctx, x: Conf, k: Cont, y: Conf)
    requires AtRep(code, c, x, k, y) && y.s != To(x.s.offset + |EncNode(k.ns.n)|)
    ensures Backs(code, c, x, AtItems(k), y, AtItems(k))
  {
    hide KAt, Rest, EncNode, ContOk, CountOk, RepOk, Sem, Backs, PlaceOk, RepMoved, ValidKind, Rooted, TalliedPlace;
    var n := k.ns.n;
    RepMore(c, n.x, n.k, x.s.count, x.pos, y, To(x.s.offset + |EncNode(n)|), x.s.offset);
    RepStays(code, c, x.s, y.s, k);
    RepSemMore(c, k, x.s.count, x.pos, y.s.count, y.pos);
    BacksIs(code, c, x, AtItems(k), y, AtItems(k));
  }

  lemma BacksIs(code: seq<Byte>, c: Ctx, x: Conf, pl: Place, y: Conf, pl': Place)
    requires PlaceOk(code, c, y.s, pl') && x.pos <= |c.s| && y.pos <= |c.s| && Keeps(pl, pl')
    requires forall e: nat :: Sem(c, pl', y.s.count, y.pos, e) ==> Sem(c, pl, x.s.count, x.pos, e)
    ensures Backs(code, c, x, pl, y, pl')
  {
    hide PlaceOk, Keeps, Sem;
  }

  lemma RepFacts(code: seq<Byte>, c: Ctx, ket: nat, x: Conf, k: Cont, y: Conf)
    requires PlaceOk(code, c, x.s, AtItems(k)) && InRep(k) && Move(code, c, ket, x, y) && x.pos <= |c.s|
    ensures AtRep(code, c, x, k, y)
  {
    hide MovesOf, KAt, EncNode, ContOk, KindMoves, CountOk, ValidSingle, AcceptsAt;
    RepMoveOk(code, c, ket, x, k);
    ItemOk(c, k);
    SomeBytes(k.ns.n, c.nocase);
    hide Move, PlaceOk;
  }

  lemma SomeBytes(n: Node, nocase: bool)
    requires ValidNode(n, nocase)
    ensures |EncNode(n)| > 0
    ensures n.Rep? && n.k.Range? ==> n.k.mode != Possessive && (n.k.max < 0 || n.k.min <= n.k.max)
  {
  }

  lemma RepStays(code: seq<Byte>, c: Ctx, s: State, t: State, k: Cont)
    requires KAt(code, s.offset, k) && ContOk(c, k) && InRep(k) && t.offset == s.offset && CountOk(k.ns.n.k, t.count)
    ensures PlaceOk(code, c, t, AtItems(k))
  {
    hide KAt, ContOk, CountOk;
  }

  lemma RepSem(c: Ctx, k: Cont, cnt: nat, p: nat, q: nat)
    requires InRep(k) && ContOk(c, Past(k)) && p <= |c.s| && q <= |c.s| && RepOk(c, k.ns.n.x, k.ns.n.k, cnt, p, q)
    ensures forall e: nat :: Sem(c, AtItems(Past(k)), 0, q, e) ==> Sem(c, AtItems(k), cnt, p, e)
  {
    hide Rest, RepOk, ContOk;
    forall e: nat | Sem(c, AtItems(Past(k)), 0, q, e) ensures Sem(c, AtItems(k), cnt, p, e) { Fresh(c, Past(k), q, e); }
  }

  lemma RepSemMore(c: Ctx, k: Cont, cnt: nat, p: nat, cnt': nat, p': nat)
    requires InRep(k) && p <= |c.s| && p' <= |c.s|
    requires forall q :: RepOk(c, k.ns.n.x, k.ns.n.k, cnt', p', q) ==> RepOk(c, k.ns.n.x, k.ns.n.k, cnt, p, q)
    ensures forall e: nat :: Sem(c, AtItems(k), cnt', p', e) ==> Sem(c, AtItems(k), cnt, p, e)
  {
    hide Rest, RepOk;
    forall e: nat | Sem(c, AtItems(k), cnt', p', e) ensures Sem(c, AtItems(k), cnt, p, e) {
      var q: nat :| q <= |c.s| && RepOk(c, k.ns.n.x, k.ns.n.k, cnt', p', q) && Rest(c, Past(k), q, e);
      assert RepOk(c, k.ns.n.x, k.ns.n.k, cnt, p, q);
    }
  }

  predicate RepMoved(c: Ctx, x: Single, k: Kind, cnt: nat, p: nat, y: Conf, next: State, pc: nat) {
    var m := KindMoves(k, pc, next.offset, cnt, AcceptsAt(c, x, p));
    (y.pos == p && y.s in m.active) || (y.pos == p + 1 && y.s in m.next)
  }

  lemma RepDone(c: Ctx, x: Single, k: Kind, cnt: nat, p: nat, y: Conf, next: State, pc: nat)
    requires RepMoved(c, x, k, cnt, p, y, next, pc) && CountOk(k, cnt) && p <= |c.s| && y.s == next == To(next.offset) && next.offset != pc
    requires k.Range? ==> k.mode != Possessive && (k.max < 0 || k.min <= k.max)
    ensures y.pos <= |c.s| && RepOk(c, x, k, cnt, p, y.pos)
  {
    hide Accepts;
  }

  lemma RepMore(c: Ctx, x: Single, k: Kind, cnt: nat, p: nat, y: Conf, next: State, pc: nat)
    requires RepMoved(c, x, k, cnt, p, y, next, pc) && CountOk(k, cnt) && p <= |c.s| && y.s != next == To(next.offset) && next.offset != pc
    ensures y.pos == p + 1 <= |c.s| && y.s.offset == pc && CountOk(k, y.s.count)
    ensures forall q :: RepOk(c, x, k, y.s.count, y.pos, q) ==> RepOk(c, x, k, cnt, p, q)
  {
    hide Accepts;
    forall q: nat | RepOk(c, x, k, y.s.count, y.pos, q) ensures RepOk(c, x, k, cnt, p, q) {
      assert AcceptsAt(c, x, p) && y.pos == p + 1;
      assert k.Max() >= 0 ==> y.s.count + (q - y.pos) == cnt + (q - p);
    }
  }

  // ---------- brackets ----------

  function MdOf(code: seq<Byte>, c: Ctx): Machine.Md { Machine.Md(code, c, 0, 0, 0, 0) }

  predicate IsBranch(g: Group, b: Nodes) { b == g.b || IsAlt(g.more, b) }

  predicate IsAlt(a: Alts, b: Nodes) { a.Alt? && (b == a.b || IsAlt(a.more, b)) }

  lemma {:induction false} AltOnce(c: Ctx, a: Alts, b: Nodes, p: nat, e: nat)
    requires IsAlt(a, b) && p <= |c.s| && Ends(c, b, p, e)
    ensures EndsAlts(c, a, p, e)
    decreases a
  {
    hide Ends;
    if b != a.b { AltOnce(c, a.more, b, p, e); }
  }

  lemma BranchOnce(c: Ctx, g: Group, b: Nodes, p: nat, e: nat)
    requires IsBranch(g, b) && p <= |c.s| && Ends(c, b, p, e)
    ensures EndsOnce(c, g, p, e)
  {
    hide Ends;
    if b != g.b { AltOnce(c, g.more, b, p, e); }
  }

  lemma {:induction false} AltParts2(c: Ctx, a: Alts, b: Nodes)
    requires IsAlt(a, b) && ValidAlts(a, c.nocase) && FitAlts(c, a)
    ensures ValidNodes(b, c.nocase) && Fit(c, b)
    decreases a
  {
    if b != a.b { AltParts2(c, a.more, b); }
  }

  lemma BranchPartsOk(c: Ctx, g: Group, b: Nodes)
    requires IsBranch(g, b) && ValidGroup(g, c.nocase) && FitGroup(c, g)
    ensures ValidNodes(b, c.nocase) && Fit(c, b)
  {
    if b != g.b { AltParts2(c, g.more, b); }
  }

  /** One step along the branches. */
  lemma StartsStep(code: seq<Byte>, c: Ctx, pc: nat, b: Nodes, more: Alts, g: Group, gpc: nat)
    requires |code| <= MAX_PATTERN_SIZE && BranchAt(code, pc, b, more, g, gpc) && pc < |code|
    ensures var next := pc + Get(code, pc + 1);
      && BranchStarts(code, pc) == [To(pc + Machine.OpenLen(At(code, pc)))] + (if more.Alt? then BranchStarts(code, next) else [])
      && (more.Alt? ==> pc < next < |code| && BranchAt(code, next, more.b, more.more, g, gpc))
  {
    hide BranchAt, Has, EncGroup;
    var md := MdOf(code, c);
    if more.Alt? { NextCode(md, pc, b, more, g, gpc); } else { LastBranchCode(md, pc, b, g, gpc); }
  }

  lemma LastBranchCode(md: Machine.Md, pc: nat, b: Nodes, g: Group, gpc: nat)
    requires MdOk(md) && BranchAt(md.code, pc, b, NoAlt, g, gpc)
    ensures At(md.code, pc + Get(md.code, pc + 1)) != OP_ALT
  {
    hide EncNodes, EncGroup;
    GroupAt(md.code, gpc, g);
  }

  /** A first item of a branch is where that branch begins. */
  lemma {:induction false} StartIs(code: seq<Byte>, c: Ctx, pc: nat, b: Nodes, more: Alts, g: Group, gpc: nat, k: Cont, t: State) returns (b': Nodes)
    requires |code| <= MAX_PATTERN_SIZE && BranchAt(code, pc, b, more, g, gpc) && pc < |code|
    requires KAt(code, gpc + Span(g) + 3, k) && t in BranchStarts(code, pc)
    ensures (b' == b || IsAlt(more, b')) && t.count == 0 && KAt(code, t.offset, In(b', g, gpc, 0, k))
    decreases |code| - pc
  {
    hide BranchAt, Has, KAt, BranchStarts, Get;
    StartsStep(code, c, pc, b, more, g, gpc);
    if t == To(pc + Machine.OpenLen(At(code, pc))) {
      b' := b;
      BranchCode(MdOf(code, c), pc, b, more, g, gpc, 0, k);
    } else {
      b' := StartIs(code, c, pc + Get(code, pc + 1), more.b, more.more, g, gpc, k, t);
    }
  }

  lemma OpensAt(code: seq<Byte>, c: Ctx, ket: nat, gpc: nat, g: Group, cnt: nat, p: nat)
    requires Has(code, gpc, EncGroup(g)) && |code| <= MAX_PATTERN_SIZE
    ensures BranchAt(code, gpc, g.b, g.more, g, gpc) && gpc < |code|
    ensures MovesOf(code, c, ket, State(gpc, cnt), p) == Stay(BranchStarts(code, gpc))
  {
    GroupCode(MdOf(code, c), gpc, g);
    GroupAt(code, gpc, g);
    hide EncGroup, Has, BranchAt, BranchStarts, SkipAlts;
  }

  lemma BracketBacks(code: seq<Byte>, c: Ctx, ket: nat, x: Conf, g: Group, k: Cont, y: Conf) returns (pl: Place)
    requires PlaceOk(code, c, x.s, AtBracket(g, x.s.offset, k)) && Move(code, c, ket, x, y) && x.pos <= |c.s| && |code| <= MAX_PATTERN_SIZE
    ensures Backs(code, c, x, AtBracket(g, x.s.offset, k), y, pl)
  {
    hide Has, EncGroup, MovesOf, KAt, BranchAt, BranchStarts, ContOk, ValidGroup, FitGroup, Rest, Again, EndsOnce, EndsGroup, Ends;
    var gpc := x.s.offset;
    assert x.s == State(gpc, 0);
    OpensAt(code, c, ket, gpc, g, 0, x.pos);
    var b := StartIs(code, c, gpc, g.b, g.more, g, gpc, k, y.s);
    BranchPartsOk(c, g, b);
    var kb := In(b, g, gpc, 0, k);
    pl := AtItems(kb);
    BranchPlace(code, c, y.s, kb);
    KeepsBranch(g, b, gpc, k);
    hide Keeps;
    forall e: nat | Sem(c, pl, 0, y.pos, e) ensures Sem(c, AtBracket(g, gpc, k), 0, x.pos, e) {
      Fresh(c, kb, x.pos, e);
      BranchSem(c, b, g, gpc, k, x.pos, e);
    }
  }

  lemma BranchPlace(code: seq<Byte>, c: Ctx, s: State, kb: Cont)
    requires kb.In? && s.count == 0 && KAt(code, s.offset, kb) && ValidNodes(kb.ns, c.nocase) && Fit(c, kb.ns)
    requires ValidGroup(kb.g, c.nocase) && FitGroup(c, kb.g) && ContOk(c, kb.k)
    ensures PlaceOk(code, c, s, AtItems(kb)) && ContOk(c, kb)
  {
    hide KAt;
    if InRep(kb) { ItemOk(c, kb); }
  }

  /** A branch of g, and what follows its ket, is g and what follows. */
  lemma BranchSem(c: Ctx, b: Nodes, g: Group, gpc: nat, k: Cont, p: nat, e: nat)
    requires IsBranch(g, b) && p <= |c.s| && Rest(c, In(b, g, gpc, 0, k), p, e)
    ensures Sem(c, AtBracket(g, gpc, k), 0, p, e)
  {
    var q: nat, q': nat :| q <= |c.s| && q' <= |c.s| && Ends(c, b, p, q) && Again(c, g, q, q') && Rest(c, k, q', e);
    hide Rest, Ends, EndsGroup, EndsOnce;
    BranchOnce(c, g, b, p, q);
    EndsGroupIff(c, g, p, q');
    EndsGroupIff(c, g, p, q);
    BareStays2(c, b, p, q);
  }

  lemma BareStays2(c: Ctx, ns: Nodes, p: nat, q: nat)
    requires p <= |c.s| && Ends(c, ns, p, q)
    ensures p <= q <= |c.s|
  {
    BareStays(c, ns, p, At0(q));
  }

  // ---------- kets ----------

  lemma KetFields(code: seq<Byte>, c: Ctx, pc: nat, k: Cont)
    requires KAt(code, pc, k) && k.In? && k.ns.Nil? && |code| <= MAX_PATTERN_SIZE
    ensures if pc == k.gpc + Span(k.g) then
        At(code, pc) == KetOp(k.g.ket) && Get(code, pc + 1) == Span(k.g) && KAt(code, pc + 3, k.k) && Has(code, k.gpc, EncGroup(k.g)) &&
        KAt(code, k.gpc + Span(k.g) + 3, k.k)
      else At(code, pc) == OP_ALT && SkipAlts(code, pc) == k.gpc + Span(k.g) && KAt(code, SkipAlts(code, pc), k)
  {
    KetGroup(code, pc, k);
    GroupAt(code, k.gpc, k.g);
    hide EncGroup, SkipAlts;
    if pc != k.gpc + Span(k.g) { HasHere(code, k.gpc + Span(k.g)); }
  }

  lemma KetGroup(code: seq<Byte>, pc: nat, k: Cont)
    requires KAt(code, pc, k) && k.In? && k.ns.Nil?
    ensures Has(code, k.gpc, EncGroup(k.g)) && EncNodes(k.ns) == []
  {
  }

  lemma HasHere(code: seq<Byte>, pc: nat)
    requires pc <= |code|
    ensures Has(code, pc, [])
  {
  }

  lemma KetBacks(code: seq<Byte>, c: Ctx, ket: nat, x: Conf, k: Cont, y: Conf) returns (pl: Place)
    requires PlaceOk(code, c, x.s, AtItems(k)) && k.In? && k.ns.Nil? && Move(code, c, ket, x, y) && x.pos <= |c.s|
    requires |code| <= MAX_PATTERN_SIZE && SkipAlts(code, 0) == ket
    ensures Backs(code, c, x, AtItems(k), y, pl)
  {
    hide Has, EncGroup, KAt, Rest, Ends, EndsGroup, SkipAlts, Fit, FitGroup, ValidGroup, Get, MovesOf, ContOk, Sem, Span, RootedCont;
    KetFields(code, c, x.s.offset, k);
    KetStep(code, c, ket, x, k, y);
    KetRooted(code, ket, x.s.offset, k);
    KeepsKet(k);
    hide TalliedCont, TalliedGroup;
    if x.s.offset != k.gpc + Span(k.g) {
      pl := AtItems(k);
    } else if y.s == To(x.s.offset + 3) {
      pl := AtItems(k.k);
      KetPlace(c, k);
      forall e: nat | Sem(c, pl, 0, y.pos, e) ensures Sem(c, AtItems(k), 0, x.pos, e) { KetPassed(c, k, x.pos, e); }
    } else {
      pl := AtBracket(k.g, k.gpc, k.k);
      KetPlace(c, k);
      forall e: nat | Sem(c, pl, 0, y.pos, e) ensures Sem(c, AtItems(k), 0, x.pos, e) { KetAround(c, k, x.pos, e); }
    }
  }

  /** The moves at the end of a branch and at a ket. */
  lemma KetStep(code: seq<Byte>, c: Ctx, ket: nat, x: Conf, k: Cont, y: Conf)
    requires PlaceOk(code, c, x.s, AtItems(k)) && k.In? && k.ns.Nil? && Move(code, c, ket, x, y) && |code| <= MAX_PATTERN_SIZE
    ensures y.pos == x.pos && x.s.count == 0
    ensures x.s.offset != k.gpc + Span(k.g) ==> y.s == To(SkipAlts(code, x.s.offset))
    ensures x.s.offset == k.gpc + Span(k.g) ==>
      x.s.offset != ket && (y.s == To(x.s.offset + 3) || (y.s == To(k.gpc) && k.g.ket != Ket))
  {
    hide Has, EncGroup, KAt, SkipAlts, Fit, FitGroup, ValidGroup, Get, ContOk;
    KetFields(code, c, x.s.offset, k);
    if x.s.offset == k.gpc + Span(k.g) {
      NoMoveAtEnd(code, c, ket, x, y);
      hide MovesOf;
      MovesAtKet(code, c, ket, x.s, x.pos);
    }
  }

  lemma NoMoveAtEnd(code: seq<Byte>, c: Ctx, ket: nat, x: Conf, y: Conf)
    requires Move(code, c, ket, x, y) && OP_KET <= At(code, x.s.offset) <= OP_KETRMIN
    ensures x.s.offset != ket
  {
    hide SkipAlts, BranchStarts, FamilyOf, RepeatMoves, ClassMoves, AcceptsAt, ZeroMoves;
  }

  /** The ket of the outermost bracket is the end of the pattern. */
  lemma KetRooted(code: seq<Byte>, ket: nat, pc: nat, k: Cont)
    requires KAt(code, pc, k) && k.In? && k.ns.Nil? && |code| <= MAX_PATTERN_SIZE && SkipAlts(code, 0) == ket
    ensures RootedCont(k) && pc == k.gpc + Span(k.g) && pc != ket ==> RootedCont(k.k) && Rooted(AtBracket(k.g, k.gpc, k.k))
  {
    KetFields(code, Ctx([], false, false, false, false, false, false), pc, k);
    hide KAt, SkipAlts, EncGroup, Has;
    if RootedCont(k) && k.k.Done? && pc == k.gpc + Span(k.g) { SkipGroup(code, 0, k.g); }
  }

  lemma KetPlace(c: Ctx, k: Cont)
    requires ContOk(c, k) && k.In?
    ensures ContOk(c, k.k) && ValidGroup(k.g, c.nocase) && FitGroup(c, k.g)
    ensures InRep(k.k) ==> CountOk(k.k.ns.n.k, 0)
  {
    if InRep(k.k) { ItemOk(c, k.k); }
  }

  lemma KetPassed(c: Ctx, k: Cont, p: nat, e: nat)
    requires k.In? && k.ns.Nil? && ContOk(c, k.k) && p <= |c.s| && Sem(c, AtItems(k.k), 0, p, e)
    ensures Sem(c, AtItems(k), 0, p, e)
  {
    hide Rest, RepOk, ContOk;
    Fresh(c, k.k, p, e);
    KetOn(c, k, p, e);
  }

  lemma KetAround(c: Ctx, k: Cont, p: nat, e: nat)
    requires k.In? && k.ns.Nil? && p <= |c.s| && k.g.ket != Ket && Sem(c, AtBracket(k.g, k.gpc, k.k), 0, p, e)
    ensures Sem(c, AtItems(k), 0, p, e)
  {
    KetAgain(c, k, p, e);
    hide Rest, RepOk;
  }

  lemma EndsNil(c: Ctx, p: nat)
    requires p <= |c.s|
    ensures Ends(c, Nil, p, p)
  {
  }

  lemma KetOn(c: Ctx, k: Cont, p: nat, e: nat)
    requires k.In? && k.ns.Nil? && p <= |c.s| && Rest(c, k.k, p, e)
    ensures Rest(c, k, p, e)
  {
    EndsNil(c, p);
    hide Ends, EndsGroup;
    assert Again(c, k.g, p, p);
  }

  lemma KetAgain(c: Ctx, k: Cont, p: nat, e: nat)
    requires k.In? && k.ns.Nil? && p <= |c.s| && k.g.ket != Ket && Sem(c, AtBracket(k.g, k.gpc, k.k), 0, p, e)
    ensures Rest(c, k, p, e)
  {
    EndsNil(c, p);
    hide Ends, EndsGroup;
    var q: nat :| q <= |c.s| && EndsGroup(c, k.g, p, q) && Rest(c, k.k, q, e);
    assert Again(c, k.g, p, q);
  }

  // ---------- items ----------

  /** A bracket that is the first item. */
  lemma BracketItem(code: seq<Byte>, c: Ctx, pc: nat, k: Cont)
    requires KAt(code, pc, k) && ContOk(c, k) && k.In? && k.ns.Cons? && k.ns.n.Grp? && |code| <= MAX_PATTERN_SIZE
    ensures var g, z := k.ns.n.g, k.ns.n.z;
      && PlaceOk(code, c, To(pc + |EncPrefix(z)|), AtBracket(g, pc + |EncPrefix(z)|, Past(k)))
      && At(code, pc) == (EncPrefix(z) + [BraOp(g)])[0] && SkipAlts(code, pc + |EncPrefix(z)|) == pc + |EncPrefix(z)| + Span(g)
      && |EncNode(k.ns.n)| == |EncPrefix(z)| + Span(g) + 3
  {
    hide KAt, ContOk, Has, EncGroup, SkipAlts, EncNode, FitGroup, ValidGroup;
    KAtStep(code, pc, k);
    PastPlace(code, c, pc, k);
    ItemOk(c, k);
    BracketBytes(code, pc, k.ns.n.z, k.ns.n.g);
    PlaceAt(code, c, pc + |EncNode(k.ns.n)|, Past(k));
  }

  lemma PlaceAt(code: seq<Byte>, c: Ctx, pc: nat, k: Cont)
    requires PlaceOk(code, c, To(pc), AtItems(k))
    ensures KAt(code, pc, k) && ContOk(c, k)
  {
  }

  lemma GroupSize(g: Group)
    ensures |EncGroup(g)| == Span(g) + 3
  {
    hide EncNodes, EncAlts;
  }

  lemma GroupAtHead(code: seq<Byte>, pc: nat, z: Prefix, g: Group)
    requires Has(code, pc, EncPrefix(z) + EncGroup(g)) && |code| <= MAX_PATTERN_SIZE
    ensures Has(code, pc + |EncPrefix(z)|, EncGroup(g)) && At(code, pc + |EncPrefix(z)|) == BraOp(g)
  {
    HasSplit(code, pc, EncPrefix(z), EncGroup(g));
    GroupAt(code, pc + |EncPrefix(z)|, g);
  }

  lemma BracketBytes(code: seq<Byte>, pc: nat, z: Prefix, g: Group)
    requires Has(code, pc, EncNode(Grp(z, g))) && |code| <= MAX_PATTERN_SIZE
    ensures At(code, pc) == (EncPrefix(z) + [BraOp(g)])[0] && Has(code, pc + |EncPrefix(z)|, EncGroup(g))
    ensures SkipAlts(code, pc + |EncPrefix(z)|) == pc + |EncPrefix(z)| + Span(g)
    ensures |EncNode(Grp(z, g))| == |EncPrefix(z)| + Span(g) + 3
  {
    hide Has, EncGroup, SkipAlts, EncNodes, EncAlts, Get, At, EncHead;
    assert EncNode(Grp(z, g)) == EncPrefix(z) + EncGroup(g);
    GroupSize(g);
    GroupAtHead(code, pc, z, g);
    hide EncNode, Span;
    HasSplit(code, pc, EncPrefix(z), EncGroup(g));
    if z != NoPrefix { HasAt(code, pc, EncPrefix(z), 0); }
    SkipGroup(code, pc + |EncPrefix(z)|, g);
    GroupAt(code, pc + |EncPrefix(z)|, g);
  }

  lemma BracketSem(c: Ctx, k: Cont, gpc: nat, p: nat, e: nat)
    requires k.In? && k.ns.Cons? && k.ns.n.Grp? && k.ns.n.z != SkipZero && p <= |c.s|
    requires Sem(c, AtBracket(k.ns.n.g, gpc, Past(k)), 0, p, e)
    ensures Sem(c, AtItems(k), 0, p, e)
  {
    hide Rest, AllGroup;
    var q: nat :| q <= |c.s| && EndsGroup(c, k.ns.n.g, p, q) && Rest(c, Past(k), q, e);
    RestStep(c, k, p, q, e);
  }

  lemma PrefixMoves(code: seq<Byte>, c: Ctx, ket: nat, x: Conf, k: Cont)
    requires PlaceOk(code, c, x.s, AtItems(k)) && k.In? && k.ns.Cons? && k.ns.n.Grp? && k.ns.n.z != NoPrefix && |code| <= MAX_PATTERN_SIZE
    ensures var next := To(x.s.offset + |EncNode(k.ns.n)|);
      MovesOf(code, c, ket, x.s, x.pos) ==
        if k.ns.n.z == SkipZero then Stay([next]) else Stay([To(x.s.offset + 1), next])
  {
    hide MovesOf, KAt, ContOk, Has, EncNode, SkipAlts, FitGroup, ValidGroup, EncGroup, Span;
    BracketItem(code, c, x.s.offset, k);
    MovesAtZero(code, c, ket, x.s, x.pos);
  }

  lemma GroupItemBacks(code: seq<Byte>, c: Ctx, ket: nat, x: Conf, k: Cont, y: Conf) returns (pl: Place)
    requires PlaceOk(code, c, x.s, AtItems(k)) && k.In? && k.ns.Cons? && k.ns.n.Grp? && Move(code, c, ket, x, y) && x.pos <= |c.s|
    requires |code| <= MAX_PATTERN_SIZE
    ensures Backs(code, c, x, AtItems(k), y, pl)
  {
    var g, z, pc := k.ns.n.g, k.ns.n.z, x.s.offset;
    BracketItem(code, c, pc, k);
    KeepsPast(k);
    hide Tallied, TalliedCont, TalliedGroup, RootedCont;
    if z == NoPrefix {
      hide KAt, ContOk, Has, EncNode, SkipAlts, MovesOf, Rest, AllGroup, FitGroup, ValidGroup;
      assert x.s == To(pc);
      pl := BracketBacks(code, c, ket, x, g, Past(k), y);
      forall e: nat | Sem(c, pl, y.s.count, y.pos, e) ensures Sem(c, AtItems(k), 0, x.pos, e) { BracketSem(c, k, pc, x.pos, e); }
    } else {
      PrefixMoves(code, c, ket, x, k);
      hide KAt, ContOk, Has, EncNode, SkipAlts, MovesOf, Rest, AllGroup, FitGroup, ValidGroup;
      if y.s == To(pc + |EncNode(k.ns.n)|) {
        pl := AtItems(Past(k));
        PassedItem(code, c, x, k, y);
      } else {
        pl := AtBracket(g, pc + 1, Past(k));
        forall e: nat | Sem(c, pl, y.s.count, y.pos, e) ensures Sem(c, AtItems(k), 0, x.pos, e) { BracketSem(c, k, pc + 1, x.pos, e); }
      }
    }
  }

  /** The byte after an item is no repeat of a class. */
  lemma ItemEnd(code: seq<Byte>, c: Ctx, pc: nat, k: Cont)
    requires KAt(code, pc, k) && ContOk(c, k) && k.In? && k.ns.Cons? && |code| <= MAX_PATTERN_SIZE
    ensures !IsClassRepeatOp(At(code, pc + |EncNode(k.ns.n)|)) && Has(code, pc, EncNode(k.ns.n)) && At(code, pc) == EncNode(k.ns.n)[0]
  {
    KAtStep(code, pc, k);
    ItemOk(c, k);
    hide KAt, Has, EncNode;
    NextByte(MdOf(code, c), pc + |EncNode(k.ns.n)|, Past(k));
  }

  lemma PlainItemBacks(code: seq<Byte>, c: Ctx, ket: nat, x: Conf, k: Cont, y: Conf)
    requires PlaceOk(code, c, x.s, AtItems(k)) && k.In? && k.ns.Cons? && (k.ns.n.Zero? || k.ns.n.One?)
    requires Move(code, c, ket, x, y) && x.pos <= |c.s| && |code| <= MAX_PATTERN_SIZE
    ensures Backs(code, c, x, AtItems(k), y, AtItems(Past(k)))
  {
    ItemOk(c, k);
    ItemEnd(code, c, x.s.offset, k);
    assert x.s == To(x.s.offset);
    if k.ns.n.One? { OneMoves(code, c, ket, x.s.offset, 0, x.pos, k.ns.n.x); } else { ZeroMove(code, c, ket, x.s.offset, x.pos, k.ns.n.op); }
    hide KAt, ContOk, Has, MovesOf, Accepts, ZeroOk;
    assert y.s == To(x.s.offset + |EncNode(k.ns.n)|);
    assert At0(y.pos) in AllNode(c, k.ns.n, At0(x.pos));
    PassedItem(code, c, x, k, y);
  }

  lemma ZeroMove(code: seq<Byte>, c: Ctx, ket: nat, pc: nat, p: nat, op: Byte)
    requires At(code, pc) == op && ValidNode(Zero(op), c.nocase) && (op == OP_DOLL ==> DollarAgrees(c))
    ensures MovesOf(code, c, ket, To(pc), p) == Stay(if ZeroOk(c, op, p) then [To(pc + 1)] else [])
  {
    hide SkipAlts, BranchStarts;
  }

  /** Every move has a place to go to, and what can be matched there could be matched
      before. */
  lemma MoveBacks(code: seq<Byte>, c: Ctx, ket: nat, x: Conf, pl: Place, y: Conf) returns (pl': Place)
    requires PlaceOk(code, c, x.s, pl) && Move(code, c, ket, x, y) && x.pos <= |c.s| && |code| <= MAX_PATTERN_SIZE
    requires SkipAlts(code, 0) == ket
    ensures Backs(code, c, x, pl, y, pl')
  {
    hide Backs, Move, SkipAlts;
    if pl.AtBracket? {
      BracketPlace(code, c, x.s, pl);
      pl' := BracketBacks(code, c, ket, x, pl.g, pl.k, y);
    } else if pl.k.Done? {
      NoMove(code, c, ket, x, pl, y);
      pl' := pl;
    } else if pl.k.ns.Nil? {
      pl' := KetBacks(code, c, ket, x, pl.k, y);
    } else if pl.k.ns.n.Grp? {
      pl' := GroupItemBacks(code, c, ket, x, pl.k, y);
    } else if pl.k.ns.n.Rep? {
      pl' := RepBacks(code, c, ket, x, pl.k, y);
    } else {
      NoOnce(code, c, x.s, pl.k);
      PlainItemBacks(code, c, ket, x, pl.k, y);
      pl' := AtItems(Past(pl.k));
    }
  }

  lemma NoOnce(code: seq<Byte>, c: Ctx, s: State, k: Cont)
    requires PlaceOk(code, c, s, AtItems(k)) && k.In? && k.ns.Cons?
    ensures !k.ns.n.Once?
  {
    hide KAt;
    ItemOk(c, k);
  }

  lemma BracketPlace(code: seq<Byte>, c: Ctx, s: State, pl: Place)
    requires PlaceOk(code, c, s, pl) && pl.AtBracket?
    ensures pl == AtBracket(pl.g, s.offset, pl.k)
  {
  }

  lemma NoMove(code: seq<Byte>, c: Ctx, ket: nat, x: Conf, pl: Place, y: Conf)
    requires PlaceOk(code, c, x.s, pl) && pl == AtItems(Done)
    ensures !Move(code, c, ket, x, y)
  {
  }
}
