/** set_start_bits: the bytes that a match can begin with. */
module Study {
  import opened Bytes
  import opened Code
  import opened Layout
  import opened Semantics
  import opened Shape
  import opened Repeats
  import opened Scan
  import opened Anchors
  import opened Chains
  import opened Units
  import StartUtf8
  import Utf8

  datatype Ssb = FAIL | DONE | CONTINUE

  type Map = s: seq<bool> | |s| == 256 witness seq(256, _ => false)

  // ---------- what is found ----------

  predicate IsDot(x: Single) { x.Type? && x.op in {OP_ANY, OP_ALLANY} }

  /** The scan gives up on dots, negated bytes, anchors, the possessive plus of a type, and
      capturing S brackets; an item that must match ends it. */
  function NodeFinds(n: Node): Ssb
    decreases n, 0
  {
    match n
    case Zero(_) => FAIL
    case One(x) => if x.NotLit? || IsDot(x) then FAIL else DONE
    case Rep(x, k) =>
      if x.NotLit? || IsDot(x) || (x.Type? && k == Plus(Possessive)) then FAIL else if k.Min() > 0 then DONE else CONTINUE
    case Grp(z, g) =>
      if z == SkipZero then CONTINUE
      else if z == NoPrefix || GroupFinds(g) == FAIL then GroupFinds(g) else CONTINUE
    case Once(_) => FAIL
  }

  function NodesFind(ns: Nodes): Ssb
    decreases ns, 1
  {
    if ns.Nil? then CONTINUE else if NodeFinds(ns.n) == CONTINUE then NodesFind(ns.rest) else NodeFinds(ns.n)
  }

  function GroupFinds(g: Group): Ssb
    decreases g, 2
  {
    if g.s && g.cap != 0 then FAIL else Both(NodesFind(g.b), AltsFind(g.more))
  }

  function AltsFind(a: Alts): Ssb
    decreases a, 1
  {
    if a.NoAlt? then DONE else Both(NodesFind(a.b), AltsFind(a.more))
  }

  function Both(x: Ssb, y: Ssb): Ssb {
    if x == FAIL || y == FAIL then FAIL else if x == CONTINUE || y == CONTINUE then CONTINUE else DONE
  }

  /** Bytes that begin a character which the item accepts. */
  predicate ItemSets(x: Single, utf8: bool, b: Byte) {
    if x.Class? && utf8 then |x.bits| == 32 && StartUtf8.Starts(x.bits, x.neg, b) else Accepts(x, b)
  }

  predicate NodeSets(n: Node, utf8: bool, b: Byte)
    decreases n, 0
  {
    ((n.One? || n.Rep?) && ItemSets(n.x, utf8, b)) || (n.Grp? && n.z != SkipZero && GroupSets(n.g, utf8, b))
  }

  /** The items up to the first one that must match. */
  predicate NodesSet(ns: Nodes, utf8: bool, b: Byte)
    decreases ns, 1
  {
    ns.Cons? && (NodeSets(ns.n, utf8, b) || (NodeFinds(ns.n) == CONTINUE && NodesSet(ns.rest, utf8, b)))
  }

  predicate GroupSets(g: Group, utf8: bool, b: Byte)
    decreases g, 2
  {
    NodesSet(g.b, utf8, b) || AltsSet(g.more, utf8, b)
  }

  predicate AltsSet(a: Alts, utf8: bool, b: Byte)
    decreases a, 1
  {
    a.Alt? && (NodesSet(a.b, utf8, b) || AltsSet(a.more, utf8, b))
  }

  // ---------- what the bits promise ----------

  /** A match from p to q begins with a byte of the map; with must, it is not empty. */
  predicate Cov(bits: Map, t: Text, p: nat, q: nat, must: bool)
    requires LegalText(t)
  {
    p <= q <= |t.u| && (p == q ==> !must) && (p < q ==> bits[Lead(t.utf8, t.u[p])])
  }

  /** In the mode utf8, whatever the subject. */
  ghost predicate NodeCov(bits: Map, n: Node, must: bool, utf8: bool) {
    forall t: Text, p: nat, q: nat ::
      LegalText(t) && t.utf8 == utf8 && p <= |t.u| && NodeReaches(t, n, p, q) ==> Cov(bits, t, p, q, must)
  }

  ghost predicate NodesCov(bits: Map, ns: Nodes, must: bool, utf8: bool) {
    forall t: Text, p: nat, e: nat ::
      LegalText(t) && t.utf8 == utf8 && p <= |t.u| && Reaches(t, ns, p, e) ==> Cov(bits, t, p, e, must)
  }

  ghost predicate OnceCov(bits: Map, g: Group, must: bool, utf8: bool) {
    forall t: Text, p: nat, e: nat ::
      LegalText(t) && t.utf8 == utf8 && p <= |t.u| && OnceReaches(t, g, p, e) ==> Cov(bits, t, p, e, must)
  }

  ghost predicate AltsCov(bits: Map, a: Alts, must: bool, utf8: bool) {
    a.Alt? ==> NodesCov(bits, a.b, must, utf8) && AltsCov(bits, a.more, must, utf8)
  }

  /** A match of ns0 begins with a byte of the map, or is a match of its rest ns. */
  ghost predicate Reduced(bits: Map, ns0: Nodes, ns: Nodes, utf8: bool) {
    forall t: Text, p: nat, e: nat :: LegalText(t) && t.utf8 == utf8 && p <= |t.u| && Reaches(t, ns0, p, e) ==>
      (p < e <= |t.u| && Cov(bits, t, p, e, true)) || Reaches(t, ns, p, e)
  }

  predicate More(a: Map, b: Map) { forall k: Byte :: a[k] ==> b[k] }

  lemma FirstReached(t: Text, ns: Nodes, p: nat, e: nat) returns (q: nat)
    requires ns.Cons? && p <= |t.u| && Reaches(t, ns, p, e)
    ensures p <= q <= e <= |t.u| && NodeReaches(t, ns.n, p, q) && Reaches(t, ns.rest, q, e)
  {
    hide NodeReaches;
    q :| p <= q <= |t.u| && NodeReaches(t, ns.n, p, q) && Reaches(t, ns.rest, q, e);
    ReachesUp(t, ns.rest, q, e);
  }

  /** Past an optional item whose bytes are in the map. */
  lemma OptionalStep(bits: Map, ns0: Nodes, ns: Nodes, utf8: bool)
    requires Reduced(bits, ns0, ns, utf8) && ns.Cons? && NodeCov(bits, ns.n, false, utf8)
    ensures Reduced(bits, ns0, ns.rest, utf8)
  {
    hide Reaches, NodeReaches;
    forall t: Text, p: nat, e: nat | LegalText(t) && t.utf8 == utf8 && p <= |t.u| && Reaches(t, ns0, p, e)
      ensures (p < e <= |t.u| && Cov(bits, t, p, e, true)) || Reaches(t, ns.rest, p, e)
    {
      if Reaches(t, ns, p, e) {
        var q := FirstReached(t, ns, p, e);
        assert Cov(bits, t, p, q, false);
      }
    }
  }

  /** At an item that must match a byte of the map. */
  lemma MustStep(bits: Map, ns0: Nodes, ns: Nodes, utf8: bool)
    requires Reduced(bits, ns0, ns, utf8) && ns.Cons? && NodeCov(bits, ns.n, true, utf8)
    ensures NodesCov(bits, ns0, true, utf8)
  {
    hide Reaches, NodeReaches;
    forall t: Text, p: nat, e: nat | LegalText(t) && t.utf8 == utf8 && p <= |t.u| && Reaches(t, ns0, p, e) ensures Cov(bits, t, p, e, true) {
      if Reaches(t, ns, p, e) {
        var q := FirstReached(t, ns, p, e);
        assert Cov(bits, t, p, q, true);
      }
    }
  }

  /** At the end of a branch nothing was found that must match. */
  lemma EndStep(bits: Map, ns0: Nodes, utf8: bool)
    requires Reduced(bits, ns0, Nil, utf8)
    ensures NodesCov(bits, ns0, false, utf8)
  {
    forall t: Text, p: nat, e: nat | LegalText(t) && t.utf8 == utf8 && p <= |t.u| && Reaches(t, ns0, p, e) ensures Cov(bits, t, p, e, false) {
      if Reaches(t, Nil, p, e) { assert e == p; }
    }
  }

  lemma ReducedMore(a: Map, b: Map, ns0: Nodes, ns: Nodes, utf8: bool)
    requires Reduced(a, ns0, ns, utf8) && More(a, b)
    ensures Reduced(b, ns0, ns, utf8)
  {
    hide Reaches;
  }

  lemma NodesCovMore(a: Map, b: Map, ns: Nodes, must: bool, must': bool, utf8: bool)
    requires NodesCov(a, ns, must, utf8) && More(a, b) && (must' ==> must)
    ensures NodesCov(b, ns, must', utf8)
  {
    hide Reaches;
  }

  lemma {:induction false} AltsOnce(bits: Map, a: Alts, must: bool, t: Text, p: nat, e: nat)
    requires LegalText(t) && AltsCov(bits, a, must, t.utf8) && p <= |t.u| && AltsReach(t, a, p, e)
    ensures Cov(bits, t, p, e, must)
    decreases a
  {
    hide Reaches;
    if !Reaches(t, a.b, p, e) { AltsOnce(bits, a.more, must, t, p, e); }
  }

  lemma BranchesOnce(bits: Map, g: Group, must: bool, utf8: bool)
    requires NodesCov(bits, g.b, must, utf8) && AltsCov(bits, g.more, must, utf8)
    ensures OnceCov(bits, g, must, utf8)
  {
    hide Reaches, AltsCov;
    forall t: Text, p: nat, e: nat | LegalText(t) && t.utf8 == utf8 && p <= |t.u| && OnceReaches(t, g, p, e) ensures Cov(bits, t, p, e, must) {
      if !Reaches(t, g.b, p, e) { AltsOnce(bits, g.more, must, t, p, e); }
    }
  }

  /** More iterations of a bracket begin where the first one does. */
  lemma GroupCov(bits: Map, g: Group, must: bool, t: Text, p: nat, e: nat)
    requires LegalText(t) && OnceCov(bits, g, must, t.utf8) && p <= |t.u| && GroupReaches(t, g, p, e)
    ensures Cov(bits, t, p, e, must)
  {
    hide OnceReaches;
    if !OnceReaches(t, g, p, e) {
      var q: nat :| p < q <= |t.u| && OnceReaches(t, g, p, q) && GroupReaches(t, g, q, e);
      assert Cov(bits, t, p, q, must);
      GroupUp(t, g, q, e);
    }
  }

  lemma BracketCov(bits: Map, z: Prefix, g: Group, must: bool, utf8: bool)
    requires z == SkipZero || OnceCov(bits, g, must && z == NoPrefix, utf8)
    ensures NodeCov(bits, Grp(z, g), must && z == NoPrefix, utf8)
  {
    hide OnceCov, GroupReaches;
    forall t: Text, p: nat, q: nat | LegalText(t) && t.utf8 == utf8 && p <= |t.u| && NodeReaches(t, Grp(z, g), p, q)
      ensures Cov(bits, t, p, q, must && z == NoPrefix)
    {
      if z != SkipZero && GroupReaches(t, g, p, q) { GroupCov(bits, g, must && z == NoPrefix, t, p, q); }
    }
  }

  // ---------- single items ----------

  /** The first bytes of all characters that x accepts. */
  ghost predicate Holds(bits: Map, x: Single, utf8: bool) { forall ch: nat :: Legal(utf8, ch) && Takes(x, ch) ==> bits[Lead(utf8, ch)] }

  lemma RepCov(bits: Map, x: Single, k: Kind, utf8: bool)
    requires Holds(bits, x, utf8)
    ensures NodeCov(bits, Rep(x, k), k.Min() > 0, utf8)
  {
    hide Lead, Takes;
  }

  lemma OneCov(bits: Map, x: Single, utf8: bool)
    requires Holds(bits, x, utf8)
    ensures NodeCov(bits, One(x), true, utf8)
  {
    hide Lead, Takes;
  }

  /** In the map of bytes, those that x accepts, and in UTF-8 mode those that begin a
      character from 128 on if x accepts such characters. */
  ghost predicate ByteHolds(bits: Map, x: Single) { forall b: Byte :: Accepts(x, b) ==> bits[b] }

  /** Literals of one byte and types: their table for bytes serves UTF-8 as well. */
  lemma TableServes(bits: Map, x: Single, utf8: bool)
    requires ByteHolds(bits, x) && (x.Lit? || (x.Type? && OP_NOT_DIGIT <= x.op <= OP_WORDCHAR)) && OneByte(x, utf8)
    ensures Holds(bits, x, utf8)
  {
    forall ch: nat | Legal(utf8, ch) && Takes(x, ch) ensures bits[Lead(utf8, ch)] {
      if utf8 { LeadKind(ch, x); }
    }
  }

  lemma LeadKind(ch: nat, x: Single)
    requires ch <= Utf8.MAX_CODE && Takes(x, ch) && OneByte(x, true)
    requires x.Lit? || (x.Type? && OP_NOT_DIGIT <= x.op <= OP_WORDCHAR)
    ensures Accepts(x, Utf8.Encode(ch)[0])
  {
    if ch < 128 {
      Utf8.Encode1(ch);
    } else {
      HighLead(ch);
    }
  }

  lemma HighLead(ch: nat)
    requires 128 <= ch <= Utf8.MAX_CODE
    ensures Utf8.Encode(ch)[0] >= 0xc2
  {
    if ch <= 0x7ff { Utf8.Encode2(ch); }
  }

  // ---------- what stands at an opcode ----------

  /** A repeat of the three families: its item, its kind and its argument. */
  lemma RepeatHere(code: seq<Byte>, pc: nat, ns: Nodes, endcode: nat, nocase: bool)
    requires Standing(code, pc, [], ns, endcode, nocase) && OP_STAR <= At(code, pc) < OP_CRSTAR
    ensures ns.Cons? && ns.n.Rep? && !ns.n.x.Class? && ValidSingle(ns.n.x, nocase) && ValidKind(ns.n.x, ns.n.k)
    ensures At(code, pc) == OP_STAR + 13 * Family(ns.n.x) + KindOffset(ns.n.k)
    ensures At(code, pc + 1 + |KindCount(ns.n.k)|) == Arg(ns.n.x)
    ensures Standing(code, pc + OpLength(At(code, pc)), [], ns.rest, endcode, nocase)
  {
    hide Has, EncNodes, EncGroup;
    NotAtEnd(code, pc, ns, endcode, nocase);
    StandOn(code, pc, ns, endcode, nocase);
    HeadOf(ns.n, nocase);
    match ns.n
    case Zero(_) =>
    case One(x) => OneHead(x, nocase);
    case Rep(x, k) => if x.Class? { ClassHead(x, k, nocase); } else { FamilyParts(code, pc, x, k); }
    case Grp(z, g) => GroupHead(z, g);
  }

  /** An item of one byte that is no class. */
  lemma SingleHere(code: seq<Byte>, pc: nat, ns: Nodes, endcode: nat, nocase: bool)
    requires Standing(code, pc, [], ns, endcode, nocase)
    requires At(code, pc) == OP_CHAR || At(code, pc) == OP_CHARNC || OP_NOT_DIGIT <= At(code, pc) <= OP_ALLANY
    ensures ns.Cons? && ns.n.One? && ValidSingle(ns.n.x, nocase)
    ensures if At(code, pc) <= OP_ALLANY then ns.n.x == Type(At(code, pc)) else ns.n.x == Lit(At(code, pc + 1), nocase)
  {
    hide Has, EncNodes, EncGroup;
    NotAtEnd(code, pc, ns, endcode, nocase);
    StandOn(code, pc, ns, endcode, nocase);
    HeadOf(ns.n, nocase);
    match ns.n
    case Zero(_) =>
    case One(x) =>
      OneHead(x, nocase);
      if x.Lit? { HasAt(code, pc, EncOne(x), 1); }
    case Rep(x, k) => if x.Class? { ClassHead(x, k, nocase); } else { FamilyHead(x, k); }
    case Grp(z, g) => GroupHead(z, g);
  }

  /** A bracket, with or without a prefix. */
  lemma BracketHere(code: seq<Byte>, pc: nat, ns: Nodes, endcode: nat, nocase: bool)
    requires Standing(code, pc, [], ns, endcode, nocase) && ValidNodes(ns, nocase)
    requires IsZeroPrefix(At(code, pc)) || At(code, pc) in {OP_BRA, OP_CBRA, OP_SBRA, OP_SCBRA}
    ensures ns.Cons? && ns.n.Grp? && ValidGroup(ns.n.g, nocase) && |code| <= MAX_PATTERN_SIZE
    ensures IsZeroPrefix(At(code, pc)) <==> ns.n.z != NoPrefix
    ensures At(code, pc) == OP_SKIPZERO <==> ns.n.z == SkipZero
    ensures var gpc := if ns.n.z == NoPrefix then pc else pc + 1;
      Has(code, gpc, EncGroup(ns.n.g)) && Standing(code, SkipAlts(code, gpc) + 3, [], ns.rest, endcode, nocase)
  {
    hide Has, EncNodes, EncGroup, SkipAlts;
    NotAtEnd(code, pc, ns, endcode, nocase);
    StandOn(code, pc, ns, endcode, nocase);
    HeadOf(ns.n, nocase);
    match ns.n
    case Zero(_) =>
    case One(x) => OneHead(x, nocase);
    case Rep(x, k) => if x.Class? { ClassHead(x, k, nocase); } else { FamilyHead(x, k); }
    case Grp(z, g) =>
      GroupHead(z, g);
      GroupFits(code, pc, ns, endcode, nocase);
      HasSplit(code, pc, EncPrefix(z), EncGroup(g));
      SkipGroup(code, pc + |EncPrefix(z)|, g);
  }

  lemma ClassHere(code: seq<Byte>, pc: nat, ns: Nodes, endcode: nat, nocase: bool)
    requires Standing(code, pc, [], ns, endcode, nocase) && (At(code, pc) == OP_CLASS || At(code, pc) == OP_NCLASS)
    ensures ns.Cons? && (ns.n.One? || ns.n.Rep?) && ns.n.x.Class? && |ns.n.x.bits| == 32
    ensures ns.n.x == Class(At(code, pc) == OP_NCLASS, ns.n.x.bits)
    ensures pc + 33 <= |code| && code[pc + 1..pc + 33] == ns.n.x.bits
    ensures var cc := At(code, pc + 33);
      var optional := cc in {OP_CRSTAR, OP_CRSTAR + 1, OP_CRSTAR + 4, OP_CRSTAR + 5} ||
                      (OP_CRRANGE <= cc <= OP_CRMINRANGE && Get(code, pc + 34) == 0);
      if optional then ns.n.Rep? && ns.n.k.Min() == 0 && Standing(code, pc + 33 + OpLength(cc), [], ns.rest, endcode, nocase)
      else ns.n.One? || ns.n.k.Min() > 0
  {
    hide Has, EncNodes, EncGroup;
    NotAtEnd(code, pc, ns, endcode, nocase);
    StandOn(code, pc, ns, endcode, nocase);
    HeadOf(ns.n, nocase);
    ClassParts(code, pc, ns, endcode, nocase);
  }

  /** Any other opcode is that of an item which the scan gives up on. */
  lemma OtherHere(code: seq<Byte>, pc: nat, ns: Nodes, endcode: nat, nocase: bool)
    requires Standing(code, pc, [], ns, endcode, nocase) && At(code, pc) != OP_ALT && !IsKet(At(code, pc))
    requires var op := At(code, pc);
      !(op in {OP_BRA, OP_CBRA, OP_SBRA, OP_SCBRA, OP_BRAZERO, OP_BRAMINZERO, OP_SKIPZERO, OP_CHAR, OP_CHARNC, OP_CLASS, OP_NCLASS} ||
        OP_NOT_DIGIT <= op <= OP_WORDCHAR || OP_STAR <= op < OP_NOTSTAR || OP_TYPESTAR <= op < OP_CRSTAR)
    ensures ns.Cons? && NodeFinds(ns.n) == FAIL
  {
    hide Has, EncNodes, EncGroup, GroupFinds;
    NotAtEnd(code, pc, ns, endcode, nocase);
    StandOn(code, pc, ns, endcode, nocase);
    HeadOf(ns.n, nocase);
    match ns.n
    case Zero(_) =>
    case One(x) => OneHead(x, nocase);
    case Rep(x, k) => if x.Class? { ClassHead(x, k, nocase); } else { FamilyHead(x, k); }
    case Grp(z, g) => GroupHead(z, g);
    case Once(_) =>
  }

  lemma ClassParts(code: seq<Byte>, pc: nat, ns: Nodes, endcode: nat, nocase: bool)
    requires Standing(code, pc, [], ns, endcode, nocase) && ns.Cons? && (ns.n.One? || ns.n.Rep?) && ns.n.x.Class?
    requires Has(code, pc, EncNode(ns.n)) && ValidNode(ns.n, nocase) && !IsClassRepeatOp(At(code, pc + |EncNode(ns.n)|))
    ensures pc + 33 <= |code| && code[pc + 1..pc + 33] == ns.n.x.bits
    ensures var cc := At(code, pc + 33);
      var optional := cc in {OP_CRSTAR, OP_CRSTAR + 1, OP_CRSTAR + 4, OP_CRSTAR + 5} ||
                      (OP_CRRANGE <= cc <= OP_CRMINRANGE && Get(code, pc + 34) == 0);
      if optional then ns.n.Rep? && ns.n.k.Min() == 0 && Standing(code, pc + 33 + OpLength(cc), [], ns.rest, endcode, nocase)
      else ns.n.One? || ns.n.k.Min() > 0
  {
    hide Has, EncNodes, ClassTail, KindCount, Standing;
    if ns.n.Rep? {
      var x, k := ns.n.x, ns.n.k;
      ClassHead(x, k, nocase);
      ClassTailAt(code, pc, x, k, nocase);
      HasSplit(code, pc, EncOne(x), ClassTail(k));
      ClassBits(code, pc, x);
      StandOn(code, pc, ns, endcode, nocase);
    } else {
      ClassBits(code, pc, ns.n.x);
    }
  }

  // ---------- setting bits ----------

  method SetBit(bits: array<bool>, c: Byte, caseless: bool)
    requires bits.Length == 256
    modifies bits
    ensures More(old(bits[..]), bits[..]) && ByteHolds(bits[..], Lit(c, caseless))
    ensures forall b: Byte :: bits[b] == (old(bits[b]) || Accepts(Lit(c, caseless), b))
  {
    bits[c] := true;
    if caseless && IsLetter(c) { bits[Fcc(c)] := true; }
  }

  /** Or in the table of a character type. */
  method SetType(bits: array<bool>, op: Byte)
    requires bits.Length == 256
    modifies bits
    ensures More(old(bits[..]), bits[..]) && ByteHolds(bits[..], Type(op))
    ensures forall b: Byte :: bits[b] == (old(bits[b]) || Accepts(Type(op), b))
  {
    for c := 0 to 256
      invariant forall b: Byte :: bits[b] == (old(bits[b]) || (b < c && TypeOk(op, b)))
    {
      bits[c] := bits[c] || TypeOk(op, c);
    }
  }

  /** Or in the map of a class: in UTF-8 mode it is about characters, and not bytes. */
  method SetClass(bits: array<bool>, table: seq<Byte>, nclass: bool, utf8: bool, ghost x: Single)
    requires bits.Length == 256 && |table| == 32 && x == Class(nclass, table)
    modifies bits
    ensures More(old(bits[..]), bits[..]) && Holds(bits[..], x, utf8)
    ensures forall b: Byte :: bits[b] == (old(bits[b]) || ItemSets(x, utf8, b))
  {
    if utf8 {
      StartUtf8.SetClassUtf8(bits, table, nclass);
      StartsServe(bits[..], table, nclass);
    } else {
      for c := 0 to 256
        invariant forall b: Byte :: bits[b] == (old(bits[b]) || (b < c && BitSet(table, b)))
      {
        bits[c] := bits[c] || BitSet(table, c);
      }
    }
  }

  lemma StartsServe(bits: Map, table: seq<Byte>, nclass: bool)
    requires |table| == 32 && forall b: Byte :: StartUtf8.Starts(table, nclass, b) ==> bits[b]
    ensures Holds(bits, Class(nclass, table), true)
  {
    hide StartUtf8.Starts, BitSet;
    forall ch: nat | Legal(true, ch) && Takes(Class(nclass, table), ch) ensures bits[Lead(true, ch)] {
      StartUtf8.StartsSound(table, nclass, false, ch);
    }
  }

  // ---------- the scan ----------

  datatype Outcome = Give | Mandatory | Optional(next: nat) | AtEnd

  /** Group numbers below 256: the scan reads an SCBRA's number as an opcode. */
  predicate Small(ns: Nodes) {
    match ns
    case Nil => true
    case Cons(n, rest) => (n.Grp? ==> SmallGroup(n.g)) && Small(rest)
  }

  predicate SmallGroup(g: Group) { g.cap < 256 && Small(g.b) && SmallAlts(g.more) }

  predicate SmallAlts(a: Alts) { a.Alt? ==> Small(a.b) && SmallAlts(a.more) }

  ghost predicate Scanned(bits: Map, code: seq<Byte>, ns: Nodes, ket: nat, nocase: bool, utf8: bool, o: Outcome) {
    match o
    case Give => true
    case AtEnd => ns.Nil?
    case Mandatory => ns.Cons? && NodeCov(bits, ns.n, true, utf8)
    case Optional(next) => ns.Cons? && NodeCov(bits, ns.n, false, utf8) && Standing(code, next, [], ns.rest, ket, nocase)
  }

  /** What the scan of the first of ns says. */
  predicate Finding(ns: Nodes, o: Outcome) {
    if ns.Nil? then o == AtEnd
    else match NodeFinds(ns.n)
      case FAIL => o == Give
      case DONE => o == Mandatory
      case CONTINUE => o.Optional?
  }

  /** One item of a branch. */
  method ItemBits(code: seq<Byte>, tcode: nat, bits: array<bool>, caseless: bool, utf8: bool, ghost ns: Nodes, ghost ket: nat)
    returns (o: Outcome)
    requires bits.Length == 256 && Standing(code, tcode, [], ns, ket, caseless) && Small(ns) && ValidNodes(ns, caseless) && OneByteNodes(ns, utf8)
    modifies bits
    ensures More(old(bits[..]), bits[..]) && Scanned(bits[..], code, ns, ket, caseless, utf8, o)
    ensures Finding(ns, o) && (o != Give ==> forall b: Byte :: bits[b] == (old(bits[b]) || (ns.Cons? && NodeSets(ns.n, utf8, b))))
    decreases ns, 0
  {
    hide Has, EncNodes, EncGroup, Standing, NodeCov, Holds, SkipAlts, Get, ValidGroup, GroupFinds, GroupSets, Accepts;
    var op := At(code, tcode);
    if op in {OP_BRA, OP_CBRA, OP_SBRA, OP_SCBRA} {
      BracketHere(code, tcode, ns, ket, caseless);
      var rc := SetStartBits(code, tcode, bits, caseless, utf8, ns.n.g);
      if rc == FAIL { return Give; }
      BracketCov(bits[..], NoPrefix, ns.n.g, rc == DONE, utf8);
      return if rc == DONE then Mandatory else Optional(SkipAlts(code, tcode) + 3);
    } else if op == OP_ALT || IsKet(op) {
      StandHereEnd(code, tcode, ns, ket, caseless);
      return AtEnd;
    } else if op == OP_BRAZERO || op == OP_BRAMINZERO {
      BracketHere(code, tcode, ns, ket, caseless);
      var rc := SetStartBits(code, tcode + 1, bits, caseless, utf8, ns.n.g);
      if rc == FAIL { return Give; }
      OnceWeaker(bits[..], ns.n.g, rc == DONE, utf8);
      BracketCov(bits[..], ns.n.z, ns.n.g, false, utf8);
      return Optional(SkipAlts(code, tcode + 1) + 3);
    } else if op == OP_SKIPZERO {
      BracketHere(code, tcode, ns, ket, caseless);
      BracketCov(bits[..], SkipZero, ns.n.g, false, utf8);
      return Optional(SkipAlts(code, tcode + 1) + 3);
    } else if op == OP_CHAR || op == OP_CHARNC {
      SingleHere(code, tcode, ns, ket, caseless);
      SetBit(bits, At(code, tcode + 1), caseless);
      TableServes(bits[..], ns.n.x, utf8);
      OneCov(bits[..], ns.n.x, utf8);
      return Mandatory;
    } else if OP_NOT_DIGIT <= op <= OP_WORDCHAR {
      SingleHere(code, tcode, ns, ket, caseless);
      SetType(bits, op);
      TableServes(bits[..], ns.n.x, utf8);
      OneCov(bits[..], ns.n.x, utf8);
      return Mandatory;
    } else if OP_STAR <= op < OP_NOTSTAR || OP_TYPESTAR <= op < OP_CRSTAR {
      o := RepeatBits(code, tcode, bits, caseless, utf8, ns, ket);
    } else if op == OP_CLASS || op == OP_NCLASS {
      ClassHere(code, tcode, ns, ket, caseless);
      SetClass(bits, code[tcode + 1..tcode + 33], op == OP_NCLASS, utf8, ns.n.x);
      if ns.n.One? { OneCov(bits[..], ns.n.x, utf8); } else { RepCov(bits[..], ns.n.x, ns.n.k, utf8); CovWeaker(bits[..], ns.n, utf8); }
      var cc := At(code, tcode + 33);
      if cc in {OP_CRSTAR, OP_CRSTAR + 1, OP_CRSTAR + 4, OP_CRSTAR + 5} { return Optional(tcode + 34); }
      if OP_CRRANGE <= cc <= OP_CRMINRANGE && Get(code, tcode + 34) == 0 { return Optional(tcode + 38); }
      return Mandatory;
    } else {
      OtherHere(code, tcode, ns, ket, caseless);
      return Give;
    }
  }

  /** A repeated character or character type. */
  method RepeatBits(code: seq<Byte>, tcode: nat, bits: array<bool>, caseless: bool, utf8: bool, ghost ns: Nodes, ghost ket: nat)
    returns (o: Outcome)
    requires bits.Length == 256 && Standing(code, tcode, [], ns, ket, caseless) && OneByteNodes(ns, utf8)
    requires OP_STAR <= At(code, tcode) < OP_NOTSTAR || OP_TYPESTAR <= At(code, tcode) < OP_CRSTAR
    modifies bits
    ensures More(old(bits[..]), bits[..]) && Scanned(bits[..], code, ns, ket, caseless, utf8, o)
    ensures Finding(ns, o) && (o != Give ==> forall b: Byte :: bits[b] == (old(bits[b]) || (ns.Cons? && NodeSets(ns.n, utf8, b))))
  {
    hide Has, EncNodes, Standing, NodeCov, Holds;
    RepeatHere(code, tcode, ns, ket, caseless);
    ghost var x, k := ns.n.x, ns.n.k;
    FamilyOp(At(code, tcode), Family(x), KindOffset(k));
    var op := At(code, tcode);
    var isType := op >= OP_TYPESTAR;
    var off := op as int - (if isType then OP_TYPESTAR else OP_STAR) as int;
    assert KindOffset(k) == off && x.Type? == isType;
    var arg := At(code, tcode + if off in {6, 7, 8, 12} then 3 else 1);
    if isType && off == 10 { return Give; }
    if isType && (arg == OP_ANY || arg == OP_ALLANY) { return Give; }
    if isType { SetType(bits, arg); } else { SetBit(bits, arg, caseless); }
    TableServes(bits[..], x, utf8);
    RepCov(bits[..], x, k, utf8);
    CovWeaker(bits[..], ns.n, utf8);
    o := if off in {2, 3, 8, 10} then Mandatory else Optional(tcode + if off in {6, 7, 12} then 4 else 2);
  }

  lemma CovWeaker(bits: Map, n: Node, utf8: bool)
    ensures NodeCov(bits, n, true, utf8) ==> NodeCov(bits, n, false, utf8)
  {
  }

  lemma OnceWeaker(bits: Map, g: Group, must: bool, utf8: bool)
    requires OnceCov(bits, g, must, utf8)
    ensures OnceCov(bits, g, false, utf8)
  {
    hide OnceReaches;
  }

  lemma StandHereEnd(code: seq<Byte>, pc: nat, ns: Nodes, endcode: nat, nocase: bool)
    requires Standing(code, pc, [], ns, endcode, nocase) && (At(code, pc) == OP_ALT || IsKet(At(code, pc)))
    ensures ns.Nil?
  {
    if ns.Cons? {
      StandOn(code, pc, ns, endcode, nocase);
      HeadOf(ns.n, nocase);
    }
  }

  /** One branch: DONE at the first item that must match, CONTINUE at its end. */
  method BranchBits(code: seq<Byte>, tcode0: nat, bits: array<bool>, caseless: bool, utf8: bool, ghost ns0: Nodes, ghost ket: nat)
    returns (found: Ssb)
    requires bits.Length == 256 && Standing(code, tcode0, [], ns0, ket, caseless) && Small(ns0) && ValidNodes(ns0, caseless) && OneByteNodes(ns0, utf8)
    modifies bits
    ensures More(old(bits[..]), bits[..])
    ensures found != FAIL ==> NodesCov(bits[..], ns0, found == DONE, utf8)
    ensures found == NodesFind(ns0) && (found != FAIL ==> forall b: Byte :: bits[b] == (old(bits[b]) || NodesSet(ns0, utf8, b)))
    decreases ns0, 1
  {
    hide Standing, NodeCov, NodesCov, Reduced, NodeSets, NodeFinds;
    var tcode := tcode0;
    ghost var ns := ns0;
    ReducedRefl(bits[..], ns0, utf8);
    while true
      invariant Standing(code, tcode, [], ns, ket, caseless) && Small(ns) && ValidNodes(ns, caseless) && OneByteNodes(ns, utf8) && (ns == ns0 || ns < ns0)
      invariant Reduced(bits[..], ns0, ns, utf8) && More(old(bits[..]), bits[..])
      invariant NodesFind(ns0) == NodesFind(ns)
      invariant forall b: Byte :: (old(bits[b]) || NodesSet(ns0, utf8, b)) == (bits[b] || NodesSet(ns, utf8, b))
      decreases ns
    {
      ghost var before := bits[..];
      var o := ItemBits(code, tcode, bits, caseless, utf8, ns, ket);
      ReducedMore(before, bits[..], ns0, ns, utf8);
      match o {
        case Give => return FAIL;
        case AtEnd =>
          EndStep(bits[..], ns0, utf8);
          return CONTINUE;
        case Mandatory =>
          MustStep(bits[..], ns0, ns, utf8);
          return DONE;
        case Optional(next) =>
          OptionalStep(bits[..], ns0, ns, utf8);
          tcode := next;
          ns := ns.rest;
      }
    }
  }

  lemma ReducedRefl(bits: Map, ns: Nodes, utf8: bool)
    ensures Reduced(bits, ns, ns, utf8)
  {
  }

  ghost predicate AllCov(bits: Map, ps: seq<Nodes>, must: bool, utf8: bool) {
    forall i :: 0 <= i < |ps| ==> NodesCov(bits, ps[i], must, utf8)
  }

  lemma AllCovMore(a: Map, b: Map, ps: seq<Nodes>, must: bool, must': bool, utf8: bool)
    requires AllCov(a, ps, must, utf8) && More(a, b) && (must' ==> must)
    ensures AllCov(b, ps, must', utf8)
  {
    hide NodesCov;
    forall i | 0 <= i < |ps| ensures NodesCov(b, ps[i], must', utf8) { NodesCovMore(a, b, ps[i], must, must', utf8); }
  }

  lemma {:induction false} AllCovAlts(bits: Map, ps: seq<Nodes>, must: bool, utf8: bool)
    requires AllCov(bits, ps, must, utf8)
    ensures AltsCov(bits, AltsOf(ps, NoAlt), must, utf8)
    decreases |ps|
  {
    hide NodesCov;
    if ps != [] { AllCovAlts(bits, ps[1..], must, utf8); }
  }

  lemma AllCovNext(a: Map, b: Map, ps: seq<Nodes>, must: bool, p: Nodes, must': bool, utf8: bool)
    requires AllCov(a, ps, must, utf8) && More(a, b) && NodesCov(b, p, must', utf8)
    ensures AllCov(b, ps + [p], must && must', utf8)
  {
    AllCovMore(a, b, ps, must, must && must', utf8);
    NodesCovMore(b, b, p, must', must && must', utf8);
    hide NodesCov;
  }

  lemma FirstAlts(bits: Map, g: Group, utf8: bool)
    requires SmallGroup(g) && OneByteGroup(g, utf8)
    ensures OneByteNodes(g.b, utf8) && OneByteAlts(g.more, utf8)
    ensures AllCov(bits, [], true, utf8) && Alt(g.b, g.more) == AltsOf([], Alt(g.b, g.more)) && Small(g.b) && SmallAlts(g.more)
  {
  }

  lemma LastAlts(bits: Map, g: Group, ps: seq<Nodes>, must: bool, utf8: bool)
    requires AllCov(bits, ps, must, utf8) && Alt(g.b, g.more) == AltsOf(ps, NoAlt)
    ensures OnceCov(bits, g, must, utf8)
  {
    hide NodesCov, OnceCov;
    AllCovAlts(bits, ps, must, utf8);
    BranchesOnce(bits, g, must, utf8);
  }

  lemma NextSmall(a: Alts, utf8: bool)
    requires SmallAlts(a) && OneByteAlts(a, utf8) && a.Alt?
    ensures Small(a.b) && SmallAlts(a.more) && OneByteNodes(a.b, utf8) && OneByteAlts(a.more, utf8)
  {
  }

  /** In an SCBRA the scan starts at the first byte of the number, which is zero. */
  lemma NumberByte(code: seq<Byte>, start: nat, g: Group)
    requires Has(code, start, EncGroup(g)) && |code| <= MAX_PATTERN_SIZE && SmallGroup(g)
    ensures start < |code| && code[start] in {OP_BRA, OP_SBRA, OP_CBRA, OP_SCBRA}
    ensures code[start] == OP_SCBRA ==> At(code, start + 3) == OP_END
    ensures code[start] == OP_SCBRA <==> g.s && g.cap != 0
  {
    GroupAt(code, start, g);
  }

  lemma LookStand(code: seq<Byte>, pc: nat, ns: Nodes, more: Alts, ket: nat, nocase: bool)
    requires Looking(code, pc, ns, more, ket, nocase) && At(code, pc) in {OP_BRA, OP_SBRA, OP_CBRA, OP_ALT}
    ensures Standing(code, pc + (if At(code, pc) == OP_CBRA then 5 else 3), [], ns, ket, nocase) && ValidNodes(ns, nocase)
  {
  }

  /** In either mode, DONE: every match of the bracket begins with a byte of the map. CONTINUE: every
      match that is not empty does. */
  method SetStartBits(code: seq<Byte>, start: nat, bits: array<bool>, caseless: bool, utf8: bool, ghost g: Group) returns (found: Ssb)
    requires Has(code, start, EncGroup(g)) && ValidGroup(g, caseless) && |code| <= MAX_PATTERN_SIZE && bits.Length == 256
    requires SmallGroup(g) && OneByteGroup(g, utf8)
    modifies bits
    ensures More(old(bits[..]), bits[..])
    ensures found != FAIL ==> OnceCov(bits[..], g, found == DONE, utf8)
    ensures found == GroupFinds(g) && (found != FAIL ==> forall b: Byte :: bits[b] == (old(bits[b]) || GroupSets(g, utf8, b)))
    decreases g, 2
  {
    hide Has, EncGroup, EncNodes, Looking, Get, NodesCov, OnceCov, AltsOf, AllCov, Small, SmallAlts, OneByteNodes, OneByteAlts, SkipAlts;
    LookFirst(code, start, g, caseless);
    NumberByte(code, start, g);
    if code[start] == OP_SCBRA { return FAIL; }
    var pc := start;
    ghost var ket, ns, more, ps: seq<Nodes> := start + Span(g), g.b, g.more, [];
    FirstAlts(bits[..], g, utf8);
    found := DONE;
    while true
      invariant Looking(code, pc, ns, more, ket, caseless) && ns < g && more < g && Small(ns) && SmallAlts(more)
      invariant OneByteNodes(ns, utf8) && OneByteAlts(more, utf8)
      invariant found != FAIL && More(old(bits[..]), bits[..]) && AllCov(bits[..], ps, found == DONE, utf8)
      invariant Alt(g.b, g.more) == AltsOf(ps, Alt(ns, more)) && At(code, pc) in {OP_BRA, OP_SBRA, OP_CBRA, OP_ALT}
      invariant GroupFinds(g) == Both(found, Both(NodesFind(ns), AltsFind(more)))
      invariant forall b: Byte :: (old(bits[b]) || GroupSets(g, utf8, b)) == (bits[b] || NodesSet(ns, utf8, b) || AltsSet(more, utf8, b))
      decreases |code| - pc
    {
      ghost var before := bits[..];
      LookStand(code, pc, ns, more, ket, caseless);
      var rc := BranchBits(code, pc + if At(code, pc) == OP_CBRA then 5 else 3, bits, caseless, utf8, ns, ket);
      if rc == FAIL { return FAIL; }
      AllCovNext(before, bits[..], ps, found == DONE, ns, rc == DONE, utf8);
      AltsSnoc(ps, ns, more);
      ps := ps + [ns];
      if rc == CONTINUE { found := CONTINUE; }
      LookNext(code, pc, ns, more, ket, caseless);
      assert more.NoAlt? ==> more == NoAlt;
      pc := pc + Get(code, pc + 1);
      if At(code, pc) != OP_ALT {
        LastAlts(bits[..], g, ps, found == DONE, utf8);
        return;
      }
      NextSmall(more, utf8);
      ns, more := more.b, more.more;
    }
  }

  /** On the bytes of a UTF-8 subject: where such a bracket matches from character p, the
      byte at which p begins is in the map. */
  lemma Utf8Starts(bits: Map, g: Group, t: Text, p: nat, e: nat)
    requires LegalText(t) && t.utf8 && OnceCov(bits, g, true, true) && p <= |t.u| && GroupReaches(t, g, p, e)
    ensures var at := |Encoded(t.u[..p])|; p < e && at < |Encoded(t.u)| && bits[Encoded(t.u)[at]]
  {
    hide OnceCov, GroupReaches, Encoded, Lead;
    GroupCov(bits, g, true, t, p, e);
    LeadStands(t.u, p);
  }
}
