/** could_be_empty_branch as a scan along the bytecode. */
module Scan {
  import opened Bytes
  import opened Code
  import opened Layout
  import opened Repeats
  import opened Pattern
  import opened Lowering

  /** _pcre_OP_lengths, for the opcodes of the base language. */
  function OpLength(op: Byte): (n: nat)
    ensures n > 0
  {
    if op == OP_CHAR || op == OP_CHARNC || op == OP_NOT then 2
    else if OP_STAR <= op < OP_CRSTAR then (if (op as int - OP_STAR as int) % 13 in {6, 7, 8, 12} then 4 else 2)
    else if op == OP_CRRANGE || op == OP_CRMINRANGE then 5
    else if op == OP_CLASS || op == OP_NCLASS then 33
    else if OP_ALT <= op <= OP_KETRMIN || op == OP_ONCE || op == OP_BRA || op == OP_SBRA then 3
    else if op == OP_CBRA || op == OP_SCBRA then 5
    else 1
  }

  predicate IsKet(op: Byte) { OP_KET <= op <= OP_KETRMIN }

  /** The opcodes that could_be_empty_branch lists as matching at least one byte. */
  predicate MustMatch(op: Byte) {
    OP_NOT_DIGIT <= op <= OP_ALLANY || op == OP_CHAR || op == OP_CHARNC || op == OP_NOT ||
    (OP_STAR <= op < OP_CRSTAR && (op as int - OP_STAR as int) % 13 in {2, 3, 8, 10})
  }

  // ---------- how items begin ----------

  lemma FamilyHead(x: Single, k: Kind)
    requires !x.Class? && ValidKind(x, k)
    ensures var e := EncRep(x, k);
      OP_STAR <= e[0] < OP_CRSTAR && |e| == OpLength(e[0]) && (MustMatch(e[0]) <==> k.Min() > 0)
  {
    var op := EncRep(x, k)[0];
    assert op == OP_STAR + 13 * Family(x) + KindOffset(k);
    FamilyOp(op, Family(x), KindOffset(k));
    EncRepLen(x, k);
  }

  lemma OneHead(x: Single, nocase: bool)
    requires ValidSingle(x, nocase)
    ensures var e := EncOne(x);
      |e| == OpLength(e[0]) && (if x.Class? then e[0] == OP_CLASS || e[0] == OP_NCLASS else MustMatch(e[0]))
  {
  }

  /** What follows the bit map of a repeated class. */
  function ClassTail(k: Kind): seq<Byte> { [OP_CRSTAR + KindOffset(k)] + KindCount(k) }

  lemma ClassHead(x: Single, k: Kind, nocase: bool)
    requires x.Class? && ValidSingle(x, nocase) && ValidKind(x, k)
    ensures EncRep(x, k) == EncOne(x) + ClassTail(k) && EncRep(x, k)[0] == EncOne(x)[0]
    ensures OP_CRSTAR <= ClassTail(k)[0] <= OP_CRMINRANGE && |ClassTail(k)| == OpLength(ClassTail(k)[0])
    ensures k.Range? <==> ClassTail(k)[0] >= OP_CRRANGE
    ensures !k.Range? ==> (k.Min() > 0 <==> ClassTail(k)[0] in {OP_CRSTAR + 2, OP_CRSTAR + 3})
  {
    assert EncOne(x) + [OP_CRSTAR + KindOffset(k)] + KindCount(k) == EncOne(x) + ClassTail(k);
  }

  lemma GroupHead(z: Prefix, g: Group)
    ensures var op := EncNode(Grp(z, g))[0];
      op == match z
        case NoPrefix => BraOp(g)
        case BraZero => OP_BRAZERO
        case BraMinZero => OP_BRAMINZERO
        case SkipZero => OP_SKIPZERO
  {
    if z == NoPrefix { assert EncNode(Grp(z, g)) == EncGroup(g) && EncGroup(g)[0] == EncHead(g)[0]; }
  }

  // ---------- where the scan stands ----------

  /** The branch ends at end, not beyond the place where the scan ends. */
  predicate Stops(code: seq<Byte>, end: nat, endcode: nat) {
    end <= endcode <= |code| <= MAX_PATTERN_SIZE && (At(code, end) == OP_ALT || IsKet(At(code, end)))
  }

  /** At pc: what is left of a repeated class (tail), then the items ns, then the ALT
      or ket that ends their branch. */
  predicate Standing(code: seq<Byte>, pc: nat, tail: seq<Byte>, ns: Nodes, endcode: nat, nocase: bool) {
    CodedNodes(ns, nocase) && Has(code, pc, tail) && Has(code, pc + |tail|, EncNodes(ns)) &&
    (tail != [] ==> OP_CRSTAR <= tail[0] <= OP_CRMINRANGE && |tail| == OpLength(tail[0])) &&
    Stops(code, pc + |tail| + |EncNodes(ns)|, endcode)
  }

  lemma Stand(code: seq<Byte>, pc: nat, ns: Nodes, endcode: nat, nocase: bool)
    requires CodedNodes(ns, nocase) && Has(code, pc, EncNodes(ns)) && Stops(code, pc + |EncNodes(ns)|, endcode)
    ensures Standing(code, pc, [], ns, endcode, nocase)
  {
  }

  lemma StandParts(code: seq<Byte>, pc: nat, ns: Nodes, endcode: nat, nocase: bool)
    requires Standing(code, pc, [], ns, endcode, nocase)
    ensures CodedNodes(ns, nocase) && Has(code, pc, EncNodes(ns)) && Stops(code, pc + |EncNodes(ns)|, endcode)
  {
  }

  /** Past an item that may match empty. */
  lemma StandOn(code: seq<Byte>, pc: nat, ns: Nodes, endcode: nat, nocase: bool)
    requires Standing(code, pc, [], ns, endcode, nocase) && ns.Cons?
    ensures Has(code, pc, EncNode(ns.n)) && At(code, pc) == EncNode(ns.n)[0] && pc < endcode
    ensures CodedNode(ns.n, nocase)
    ensures Standing(code, pc + |EncNode(ns.n)|, [], ns.rest, endcode, nocase)
    ensures !IsClassRepeatOp(At(code, pc + |EncNode(ns.n)|))
  {
    hide Has, EncNode, Standing;
    StandParts(code, pc, ns, endcode, nocase);
    assert ns == Cons(ns.n, ns.rest);
    NodesAt(code, pc, ns.n, ns.rest);
    var next := pc + |EncNode(ns.n)|;
    if ns.rest.Cons? {
      assert ns.rest == Cons(ns.rest.n, ns.rest.rest);
      NodesAt(code, next, ns.rest.n, ns.rest.rest);
      StartByte(ns.rest.n, nocase);
    }
    Stand(code, next, ns.rest, endcode, nocase);
  }

  lemma StartByte(n: Node, nocase: bool)
    requires CodedNode(n, nocase)
    ensures !IsClassRepeatOp(EncNode(n)[0]) && EncNode(n)[0] != OP_ALT && !IsKet(EncNode(n)[0])
  {
    if n.Grp? { GroupHead(n.z, n.g); }
    if n.Rep? && !n.x.Class? { FamilyHead(n.x, n.k); }
  }

  /** Inside a bracket: the branches, and what ends them. */
  lemma StandIn(code: seq<Byte>, pc: nat, g: Group, endcode: nat, nocase: bool)
    requires Has(code, pc, EncGroup(g)) && pc + Span(g) <= endcode <= |code| <= MAX_PATTERN_SIZE && CodedGroup(g, nocase)
    ensures OpLength(At(code, pc)) == HeadLen(g)
    ensures Standing(code, pc + HeadLen(g), [], g.b, endcode, nocase)
    ensures pc + Get(code, pc + 1) == pc + HeadLen(g) + |EncNodes(g.b)| && Get(code, pc + 1) > 0
    ensures Remaining(code, pc + Get(code, pc + 1), g.more, pc + Span(g), endcode, nocase)
  {
    hide Has, EncNodes, EncGroup, CodedNodes, CodedAlts;
    GroupAt(code, pc, g);
    var next := pc + HeadLen(g) + |EncNodes(g.b)|;
    if g.more.Alt? {
      assert g.more == Alt(g.more.b, g.more.more);
      AltAt(code, next, g.more.b, g.more.more);
    } else {
      assert EncAlts(g.more) == [];
    }
    hide Standing, EncAlts;
    Stand(code, pc + HeadLen(g), g.b, endcode, nocase);
  }

  /** The branches more, from pc to the ket. */
  predicate Remaining(code: seq<Byte>, pc: nat, more: Alts, ket: nat, endcode: nat, nocase: bool) {
    0 < pc && Has(code, pc, EncAlts(more)) && pc + |EncAlts(more)| == ket <= endcode <= |code| <= MAX_PATTERN_SIZE &&
    IsKet(At(code, ket)) && CodedAlts(more, nocase)
  }

  lemma StandAlt(code: seq<Byte>, pc: nat, more: Alts, ket: nat, endcode: nat, nocase: bool)
    requires Remaining(code, pc, more, ket, endcode, nocase)
    ensures At(code, pc) == OP_ALT <==> more.Alt?
    ensures more.Alt? ==>
      Standing(code, pc + 3, [], more.b, endcode, nocase) && pc < endcode && Get(code, pc + 1) == 3 + |EncNodes(more.b)| &&
      Remaining(code, pc + Get(code, pc + 1), more.more, ket, endcode, nocase)
    ensures more.NoAlt? ==> pc == ket
  {
    hide Has, EncNodes, CodedNodes, Standing;
    if more.Alt? {
      assert more == Alt(more.b, more.more);
      AltAt(code, pc, more.b, more.more);
      AltLen(more.b, more.more);
      if more.more.Alt? {
        assert more.more == Alt(more.more.b, more.more.more);
        AltAt(code, pc + 3 + |EncNodes(more.b)|, more.more.b, more.more.more);
      } else {
        assert EncAlts(more.more) == [];
      }
      hide EncAlts;
      Stand(code, pc + 3, more.b, endcode, nocase);
    }
  }

  // ---------- one opcode ----------

  predicate IsZeroPrefix(op: Byte) { op == OP_BRAZERO || op == OP_BRAMINZERO || op == OP_SKIPZERO }

  /** The opcode at pc says what stands there. */
  lemma StandHere(code: seq<Byte>, pc: nat, tail: seq<Byte>, ns: Nodes, endcode: nat, nocase: bool)
    requires Standing(code, pc, tail, ns, endcode, nocase) && pc < endcode
    ensures var c := At(code, pc);
      && (IsZeroPrefix(c) ==> tail == [] && ns.Cons? && ns.n.Grp? && ns.n.z != NoPrefix)
      && (c == OP_BRA || c == OP_CBRA ==> tail == [] && ns.Cons? && ns.n.Grp? && ns.n.z == NoPrefix && !ns.n.g.s)
      && (c == OP_ONCE ==> tail == [] && ns.Cons? && ns.n.Once?)
      && (c == OP_CLASS || c == OP_NCLASS ==>
            tail == [] && ns.Cons? && ((ns.n.One? && ns.n.x.Class?) || (ns.n.Rep? && ns.n.x.Class?)))
      && (MustMatch(c) ==> tail == [] && ns.Cons? && !CouldBeEmpty(ns))
      && (c == OP_ALT || IsKet(c) ==> tail == [] && ns.Nil?)
  {
    if tail != [] {
      HasAt(code, pc, tail, 0);
    } else if ns.Cons? {
      StandOn(code, pc, ns, endcode, nocase);
      HeadOf(ns.n, nocase);
    } else {
      assert EncNodes(Nil) == [];
    }
  }

  lemma HeadOf(n: Node, nocase: bool)
    requires CodedNode(n, nocase)
    ensures var c := EncNode(n)[0];
      && (IsZeroPrefix(c) <==> n.Grp? && n.z != NoPrefix)
      && (c == OP_BRA || c == OP_CBRA <==> n.Grp? && n.z == NoPrefix && !n.g.s)
      && (c == OP_ONCE <==> n.Once?)
      && (c == OP_CLASS || c == OP_NCLASS <==> (n.One? && n.x.Class?) || (n.Rep? && n.x.Class?))
      && (MustMatch(c) <==> (n.One? && !n.x.Class?) || (n.Rep? && !n.x.Class? && n.k.Min() > 0))
      && c != OP_ALT && !IsKet(c)
      && (n.Zero? ==> OpLength(c) == 1 == |EncNode(n)|)
      && (n.Rep? && !n.x.Class? ==> OpLength(c) == |EncNode(n)|)
  {
    match n
    case Zero(op) =>
    case One(x) => OneHead(x, nocase);
    case Rep(x, k) => if x.Class? { ClassHead(x, k, nocase); } else { FamilyHead(x, k); }
    case Grp(z, g) => GroupHead(z, g);
    case Once(_) =>
  }

  /** A class that is not repeated, or whose repeat asks for a byte, must match. */
  lemma ClassStep(code: seq<Byte>, pc: nat, ns: Nodes, endcode: nat, nocase: bool)
    requires Standing(code, pc, [], ns, endcode, nocase) && ns.Cons? && (ns.n.One? || ns.n.Rep?) && ns.n.x.Class?
    ensures var cc := At(code, pc + 33);
      var optional := cc in {OP_CRSTAR, OP_CRSTAR + 1, OP_CRSTAR + 4, OP_CRSTAR + 5} ||
                      (OP_CRRANGE <= cc <= OP_CRMINRANGE && Get(code, pc + 34) == 0);
      CouldBeEmpty(ns) == (optional && CouldBeEmpty(ns.rest)) &&
      (optional ==> ns.n.Rep? && Standing(code, pc + 33, ClassTail(ns.n.k), ns.rest, endcode, nocase))
  {
    hide Has, EncNodes, ClassTail, KindCount, KindOffset;
    StandOn(code, pc, ns, endcode, nocase);
    if ns.n.Rep? {
      ClassHead(ns.n.x, ns.n.k, nocase);
      ClassTailAt(code, pc, ns.n.x, ns.n.k, nocase);
    }
  }

  lemma ClassTailAt(code: seq<Byte>, pc: nat, x: Single, k: Kind, nocase: bool)
    requires x.Class? && ValidSingle(x, nocase) && ValidKind(x, k) && Has(code, pc, EncRep(x, k))
    ensures Has(code, pc + 33, ClassTail(k)) && At(code, pc + 33) == ClassTail(k)[0]
    ensures k.Range? ==> Get(code, pc + 34) == k.min
  {
    hide Has, KindOffset;
    ClassHead(x, k, nocase);
    HasSplit(code, pc, EncOne(x), ClassTail(k));
    HasAt(code, pc + 33, ClassTail(k), 0);
    HasSplit(code, pc + 33, [OP_CRSTAR + KindOffset(k)], KindCount(k));
    if k.Range? {
      HasSplit(code, pc + 34, Link(k.min), Link(if k.max < 0 then 0 else k.max));
      HasLink(code, pc + 34, k.min);
    }
  }

  /** Past any other opcode: the end of a class, an item that may match nothing, or
      the opening of an S bracket. */
  lemma PassOn(code: seq<Byte>, pc: nat, tail: seq<Byte>, ns: Nodes, endcode: nat, nocase: bool)
    requires Standing(code, pc, tail, ns, endcode, nocase) && pc < endcode
    requires var c := At(code, pc);
      !IsZeroPrefix(c) && c !in {OP_BRA, OP_CBRA, OP_ONCE, OP_CLASS, OP_NCLASS, OP_ALT} && !MustMatch(c) && !IsKet(c)
    ensures tail == [] ==> ns.Cons?
    ensures var ns' := if tail != [] then ns else if ns.n.Grp? then ns.n.g.b else ns.rest;
      Standing(code, pc + OpLength(At(code, pc)), [], ns', endcode, nocase) && CouldBeEmpty(ns) == CouldBeEmpty(ns')
  {
    hide Has, EncNodes, Remaining, EncGroup, Get;
    if tail != [] {
      PastTail(code, pc, tail, ns, endcode, nocase);
    } else {
      NotAtEnd(code, pc, ns, endcode, nocase);
      StandOn(code, pc, ns, endcode, nocase);
      HeadOf(ns.n, nocase);
      if ns.n.Grp? {
        assert EncNode(ns.n) == EncGroup(ns.n.g);
        GroupFits(code, pc, ns, endcode, nocase);
        StandIn(code, pc, ns.n.g, endcode, nocase);
      }
    }
  }

  lemma PastTail(code: seq<Byte>, pc: nat, tail: seq<Byte>, ns: Nodes, endcode: nat, nocase: bool)
    requires Standing(code, pc, tail, ns, endcode, nocase) && tail != []
    ensures Standing(code, pc + OpLength(At(code, pc)), [], ns, endcode, nocase)
  {
    HasAt(code, pc, tail, 0);
  }

  lemma NotAtEnd(code: seq<Byte>, pc: nat, ns: Nodes, endcode: nat, nocase: bool)
    requires Standing(code, pc, [], ns, endcode, nocase) && At(code, pc) != OP_ALT && !IsKet(At(code, pc))
    ensures ns.Cons?
  {
  }

  /** A zero prefix: on behind the bracket. */
  lemma PastPrefixed(code: seq<Byte>, pc: nat, ns: Nodes, endcode: nat, nocase: bool)
    requires Standing(code, pc, [], ns, endcode, nocase) && ns.Cons? && ns.n.Grp? && ns.n.z != NoPrefix
    ensures Standing(code, SkipAlts(code, pc + 1) + 3, [], ns.rest, endcode, nocase) && SkipAlts(code, pc + 1) >= pc
    ensures CouldBeEmpty(ns) == CouldBeEmpty(ns.rest)
  {
    hide Standing;
    StandOn(code, pc, ns, endcode, nocase);
    assert EncNode(ns.n) == EncPrefix(ns.n.z) + EncGroup(ns.n.g);
    GroupFits(code, pc, ns, endcode, nocase);
    hide EncGroup, EncNodes, Has, SkipAlts;
    HasSplit(code, pc, EncPrefix(ns.n.z), EncGroup(ns.n.g));
    SkipGroup(code, pc + 1, ns.n.g);
  }

  /** A plain bracket: its branches, and on behind it. */
  lemma PastPlain(code: seq<Byte>, pc: nat, ns: Nodes, endcode: nat, nocase: bool)
    requires Standing(code, pc, [], ns, endcode, nocase) && ns.Cons? && ns.n.Grp? && ns.n.z == NoPrefix && !ns.n.g.s
    ensures var g := ns.n.g;
      && Standing(code, pc + OpLength(At(code, pc)), [], g.b, endcode, nocase) && Get(code, pc + 1) > 0
      && Remaining(code, pc + Get(code, pc + 1), g.more, pc + Span(g), endcode, nocase)
      && Standing(code, pc + Span(g) + 3, [], ns.rest, endcode, nocase)
      && CouldBeEmpty(ns) == (GroupCouldBeEmpty(g) && CouldBeEmpty(ns.rest))
  {
    hide Has, EncNodes, EncGroup, Remaining, OpLength, Get;
    StandOn(code, pc, ns, endcode, nocase);
    assert EncNode(ns.n) == EncGroup(ns.n.g);
    GroupFits(code, pc, ns, endcode, nocase);
    StandIn(code, pc, ns.n.g, endcode, nocase);
  }

  /** An atomic bracket: its items, and on behind it. */
  lemma PastOnce(code: seq<Byte>, pc: nat, ns: Nodes, endcode: nat, nocase: bool)
    requires Standing(code, pc, [], ns, endcode, nocase) && ns.Cons? && ns.n.Once?
    ensures var inside := ns.n.ns;
      var ket := pc + 3 + |EncNodes(inside)|;
      && Standing(code, pc + OpLength(At(code, pc)), [], inside, endcode, nocase)
      && pc < pc + Get(code, pc + 1) == ket && At(code, ket) == OP_KET
      && Standing(code, ket + 3, [], ns.rest, endcode, nocase)
      && CouldBeEmpty(ns) == (CouldBeEmpty(inside) && CouldBeEmpty(ns.rest))
  {
    hide Has, EncNodes, Get, CodedNodes, Standing, Stops;
    StandOn(code, pc, ns, endcode, nocase);
    StandLen(code, pc, ns, endcode, nocase);
    OnceAt(code, pc, EncNodes(ns.n.ns));
    StopsAt(code, pc + 3 + |EncNodes(ns.n.ns)|, endcode);
    Stand(code, pc + 3, ns.n.ns, endcode, nocase);
  }

  lemma StopsAt(code: seq<Byte>, end: nat, endcode: nat)
    requires end <= endcode <= |code| <= MAX_PATTERN_SIZE && IsKet(At(code, end))
    ensures Stops(code, end, endcode)
  {
  }

  lemma StandLen(code: seq<Byte>, pc: nat, ns: Nodes, endcode: nat, nocase: bool)
    requires Standing(code, pc, [], ns, endcode, nocase) && ns.Cons?
    ensures pc + |EncNode(ns.n)| <= endcode <= |code| <= MAX_PATTERN_SIZE
  {
    assert |EncNodes(ns)| >= |EncNode(ns.n)|;
  }

  lemma GroupFits(code: seq<Byte>, pc: nat, ns: Nodes, endcode: nat, nocase: bool)
    requires Standing(code, pc, [], ns, endcode, nocase) && ns.Cons? && ns.n.Grp?
    ensures pc + |EncPrefix(ns.n.z)| + Span(ns.n.g) + 3 <= endcode <= |code| <= MAX_PATTERN_SIZE
  {
    assert |EncNodes(ns)| >= |EncNode(ns.n)|;
  }

  // ---------- the scan ----------

  /** Could the branch that opens at start match an empty string? */
  method CouldBeEmptyBranch(code: seq<Byte>, start: nat, endcode: nat, ghost ns0: Nodes, ghost nocase: bool)
    returns (empty: bool)
    requires start < |code| && Standing(code, start + OpLength(code[start]), [], ns0, endcode, nocase)
    ensures empty == CouldBeEmpty(ns0)
    decreases |code| - start
  {
    hide Has, EncNodes, EncNode, EncGroup, EncAlts, Standing, CouldBeEmpty, Remaining, SkipAlts, Get;
    var pc := start + OpLength(code[start]);
    ghost var ns, tail: seq<Byte> := ns0, [];
    while pc < endcode
      invariant start < pc && Standing(code, pc, tail, ns, endcode, nocase)
      invariant CouldBeEmpty(ns) == CouldBeEmpty(ns0)
      decreases |code| - pc
    {
      StandHere(code, pc, tail, ns, endcode, nocase);
      Inside(code, pc, tail, ns, endcode, nocase);
      var c := code[pc];
      if IsZeroPrefix(c) {
        PastPrefixed(code, pc, ns, endcode, nocase);
        pc := SkipAlts(code, pc + 1) + 3;
        ns := ns.rest;
      } else if c == OP_BRA || c == OP_CBRA {
        PastPlain(code, pc, ns, endcode, nocase);
        ghost var g, ket, more := ns.n.g, pc + Span(ns.n.g), Alt(ns.n.g.b, ns.n.g.more);
        var emptyBranch := CouldBeEmptyBranch(code, pc, endcode, g.b, nocase);
        pc := pc + Get(code, pc + 1);
        more := g.more;
        while At(code, pc) == OP_ALT
          invariant start < pc && Remaining(code, pc, more, ket, endcode, nocase)
          invariant GroupCouldBeEmpty(g) == (emptyBranch || AltsCouldBeEmpty(more))
          decreases |code| - pc
        {
          StandAlt(code, pc, more, ket, endcode, nocase);
          if !emptyBranch { emptyBranch := CouldBeEmptyBranch(code, pc, endcode, more.b, nocase); }
          pc := pc + Get(code, pc + 1);
          more := more.more;
        }
        StandAlt(code, pc, more, ket, endcode, nocase);
        if !emptyBranch { return false; }
        pc := pc + 3;
        ns := ns.rest;
      } else if c == OP_ONCE {
        PastOnce(code, pc, ns, endcode, nocase);
        var emptyBranch := CouldBeEmptyBranch(code, pc, endcode, ns.n.ns, nocase);
        pc := pc + Get(code, pc + 1);
        if !emptyBranch { return false; }
        pc := pc + 3;
        ns := ns.rest;
      } else if c == OP_CLASS || c == OP_NCLASS {
        ClassStep(code, pc, ns, endcode, nocase);
        var cc := At(code, pc + 33);
        if !(OP_CRSTAR <= cc <= OP_CRMINRANGE) || cc == OP_CRSTAR + 2 || cc == OP_CRSTAR + 3 { return false; }
        if cc >= OP_CRRANGE && Get(code, pc + 34) > 0 { return false; }
        pc := pc + 33;
        tail, ns := ClassTail(ns.n.k), ns.rest;
      } else if MustMatch(c) {
        return false;
      } else if c == OP_ALT || IsKet(c) {
        EmptyRest(ns);
        return true;
      } else {
        PassOn(code, pc, tail, ns, endcode, nocase);
        pc := pc + OpLength(c);
        tail, ns := [], if tail != [] then ns else if ns.n.Grp? then ns.n.g.b else ns.rest;
      }
    }
    AtStop(code, pc, tail, ns, endcode, nocase);
    return true;
  }

  lemma Inside(code: seq<Byte>, pc: nat, tail: seq<Byte>, ns: Nodes, endcode: nat, nocase: bool)
    requires Standing(code, pc, tail, ns, endcode, nocase) && pc < endcode
    ensures pc < |code|
  {
  }

  lemma EmptyRest(ns: Nodes)
    requires ns.Nil?
    ensures CouldBeEmpty(ns)
  {
  }

  lemma NodesLen(ns: Nodes)
    ensures ns.Cons? ==> |EncNodes(ns)| >= 1
  {
  }

  lemma AtStop(code: seq<Byte>, pc: nat, tail: seq<Byte>, ns: Nodes, endcode: nat, nocase: bool)
    requires Standing(code, pc, tail, ns, endcode, nocase) && pc >= endcode
    ensures CouldBeEmpty(ns)
  {
    NodesLen(ns);
  }
}
