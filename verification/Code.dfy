/** Structured form of the bytecode of the base language, and its bytes.
    One value of Nodes stands for exactly one byte string, EncNodes. */
module Code {
  import opened Bytes

  /** An item that matches one byte. */
  datatype Single =
    | Lit(c: Byte, nocase: bool)
    | NotLit(c: Byte, nocase: bool)
    | Type(op: Byte)
    | Class(neg: bool, bits: seq<Byte>)

  datatype Mode = Greedy | Lazy | Possessive

  /** The repeats that have an opcode of their own. A maximum of -1 is "no limit". */
  datatype Kind =
    | Star(mode: Mode)
    | Plus(mode: Mode)
    | Query(mode: Mode)
    | Upto(mode: Mode, n: nat)
    | Exact(n: nat)
    | Range(mode: Mode, min: nat, max: int)
  {
    function Min(): nat {
      match this
      case Plus(_) => 1
      case Exact(n) => n
      case Range(_, min, _) => min
      case _ => 0
    }

    function Max(): int {
      match this
      case Star(_) => -1
      case Plus(_) => -1
      case Query(_) => 1
      case Upto(_, n) => n
      case Exact(n) => n
      case Range(_, _, max) => max
    }

    function M(): Mode { if Exact? then Greedy else mode }
  }

  datatype Prefix = NoPrefix | BraZero | BraMinZero | SkipZero

  datatype Ket = Ket | KetRMax | KetRMin

  datatype Nodes = Nil | Cons(n: Node, rest: Nodes)

  datatype Node =
    | Zero(op: Byte)
    | One(x: Single)
    | Rep(x: Single, k: Kind)
    | Grp(z: Prefix, g: Group)
    | Once(ns: Nodes)

  /** A bracket: capture number (0 = none), S form, first branch, the other
      branches, and the closing ket. */
  datatype Group = Group(cap: nat, s: bool, b: Nodes, more: Alts, ket: Ket)

  datatype Alts = NoAlt | Alt(b: Nodes, more: Alts)

  // ---------- bytes ----------

  function KindOffset(k: Kind): Byte {
    var m := if k.M() == Lazy then 1 else 0;
    match k
    case Star(mode) => if mode == Possessive then 9 else m
    case Plus(mode) => if mode == Possessive then 10 else 2 + m
    case Query(mode) => if mode == Possessive then 11 else 4 + m
    case Upto(mode, _) => if mode == Possessive then 12 else 6 + m
    case Exact(_) => 8
    case Range(_, _, _) => 6 + m
  }

  function KindCount(k: Kind): seq<Byte> {
    match k
    case Upto(_, n) => Link(n)
    case Exact(n) => Link(n)
    case Range(_, min, max) => Link(min) + Link(if max < 0 then 0 else max)
    case _ => []
  }

  function EncOne(x: Single): (e: seq<Byte>)
    ensures |e| >= 1
  {
    match x
    case Lit(c, nocase) => [if nocase then OP_CHARNC else OP_CHAR, c]
    case NotLit(c, _) => [OP_NOT, c]
    case Type(op) => [op]
    case Class(neg, bits) => [if neg then OP_NCLASS else OP_CLASS] + bits
  }

  function EncRep(x: Single, k: Kind): (e: seq<Byte>)
    ensures |e| >= 1
  {
    match x
    case Lit(c, _) => [OP_STAR + KindOffset(k)] + KindCount(k) + [c]
    case NotLit(c, _) => [OP_NOTSTAR + KindOffset(k)] + KindCount(k) + [c]
    case Type(op) => [OP_TYPESTAR + KindOffset(k)] + KindCount(k) + [op]
    case Class(_, _) => EncOne(x) + [OP_CRSTAR + KindOffset(k)] + KindCount(k)
  }

  function EncPrefix(z: Prefix): seq<Byte> {
    match z
    case NoPrefix => []
    case BraZero => [OP_BRAZERO]
    case BraMinZero => [OP_BRAMINZERO]
    case SkipZero => [OP_SKIPZERO]
  }

  function BraOp(g: Group): Byte {
    (if g.cap == 0 then OP_BRA else OP_CBRA) + (if g.s then 3 else 0)
  }

  function KetOp(k: Ket): Byte {
    match k
    case Ket => OP_KET
    case KetRMax => OP_KETRMAX
    case KetRMin => OP_KETRMIN
  }

  /** Length of a bracket's opening item. */
  function HeadLen(g: Group): nat { if g.cap == 0 then 3 else 5 }

  /** Distance from the opening bracket to its ket. */
  function Span(g: Group): nat
    decreases g, 1
  { HeadLen(g) + |EncNodes(g.b)| + |EncAlts(g.more)| }

  function EncHead(g: Group): (e: seq<Byte>)
    ensures |e| == HeadLen(g)
    decreases g, 1
  {
    [BraOp(g)] + Link(HeadLen(g) + |EncNodes(g.b)|) +
    (if g.cap == 0 then [] else Link(g.cap))
  }

  function EncGroup(g: Group): (e: seq<Byte>)
    ensures |e| == Span(g) + 3
    decreases g, 2
  {
    EncHead(g) + EncNodes(g.b) + EncAlts(g.more) + [KetOp(g.ket)] + Link(Span(g))
  }

  function EncAlts(a: Alts): seq<Byte> {
    match a
    case NoAlt => []
    case Alt(b, more) => [OP_ALT] + Link(3 + |EncNodes(b)|) + EncNodes(b) + EncAlts(more)
  }

  /** An atomic bracket around the items e. */
  function OnceBytes(e: seq<Byte>): (o: seq<Byte>)
    ensures |o| == |e| + 6
  {
    [OP_ONCE] + Link(3 + |e|) + e + [OP_KET] + Link(3 + |e|)
  }

  function EncNode(n: Node): (e: seq<Byte>)
    ensures |e| >= 1
  {
    match n
    case Zero(op) => [op]
    case One(x) => EncOne(x)
    case Rep(x, k) => EncRep(x, k)
    case Grp(z, g) => EncPrefix(z) + EncGroup(g)
    case Once(ns) => OnceBytes(EncNodes(ns))
  }

  function EncNodes(ns: Nodes): seq<Byte> {
    match ns
    case Nil => []
    case Cons(n, rest) => EncNode(n) + EncNodes(rest)
  }

  /** The whole compiled pattern: an outer plain bracket and the end marker. */
  function EncProgram(g: Group): seq<Byte> { EncGroup(g) + [OP_END] }

  // ---------- well-formed items ----------

  // Coded items are what the compiler writes; valid ones hold no atomic brackets.

  predicate ValidSingle(x: Single, nocase: bool) {
    match x
    case Lit(_, nc) => nc == nocase
    case NotLit(_, nc) => nc == nocase
    case Type(op) => OP_NOT_DIGIT <= op <= OP_ALLANY
    case Class(_, bits) => |bits| == 32
  }

  predicate ValidKind(x: Single, k: Kind) {
    match k
    case Upto(_, n) => !x.Class? && 1 <= n < 0x1_0000
    case Exact(n) => !x.Class? && 2 <= n < 0x1_0000
    case Range(mode, min, max) =>
      x.Class? && mode != Possessive && min < 0x1_0000 &&
      (max == -1 || (1 <= max < 0x1_0000 && min <= max))
    case _ => x.Class? ==> k.mode != Possessive
  }

  predicate CodedNodes(ns: Nodes, nocase: bool) {
    match ns
    case Nil => true
    case Cons(n, rest) => CodedNode(n, nocase) && CodedNodes(rest, nocase)
  }

  predicate CodedNode(n: Node, nocase: bool) {
    match n
    case Zero(op) => op in {OP_SOD, OP_EODN, OP_EOD, OP_CIRC, OP_DOLL}
    case One(x) => ValidSingle(x, nocase)
    case Rep(x, k) => ValidSingle(x, nocase) && ValidKind(x, k)
    case Grp(_, g) => CodedGroup(g, nocase)
    case Once(ns) => CodedNodes(ns, nocase)
  }

  predicate CodedGroup(g: Group, nocase: bool) {
    g.cap < 0x1_0000 && CodedNodes(g.b, nocase) && CodedAlts(g.more, nocase)
  }

  predicate CodedAlts(a: Alts, nocase: bool) {
    match a
    case NoAlt => true
    case Alt(b, more) => CodedNodes(b, nocase) && CodedAlts(more, nocase)
  }

  predicate ValidNodes(ns: Nodes, nocase: bool) {
    match ns
    case Nil => true
    case Cons(n, rest) => ValidNode(n, nocase) && ValidNodes(rest, nocase)
  }

  predicate ValidNode(n: Node, nocase: bool) {
    match n
    case Zero(op) => op in {OP_SOD, OP_EODN, OP_EOD, OP_CIRC, OP_DOLL}
    case One(x) => ValidSingle(x, nocase)
    case Rep(x, k) => ValidSingle(x, nocase) && ValidKind(x, k)
    case Grp(_, g) => ValidGroup(g, nocase)
    case Once(_) => false
  }

  predicate ValidGroup(g: Group, nocase: bool) {
    g.cap < 0x1_0000 && ValidNodes(g.b, nocase) && ValidAlts(g.more, nocase)
  }

  predicate ValidAlts(a: Alts, nocase: bool) {
    match a
    case NoAlt => true
    case Alt(b, more) => ValidNodes(b, nocase) && ValidAlts(more, nocase)
  }

  lemma PlainNodeCoded(n: Node, nocase: bool)
    requires ValidNode(n, nocase)
    ensures CodedNode(n, nocase)
  {
    if n.Grp? { PlainGroupCoded(n.g, nocase); }
  }

  lemma {:induction false} PlainCoded(ns: Nodes, nocase: bool)
    requires ValidNodes(ns, nocase)
    ensures CodedNodes(ns, nocase)
    decreases ns, 1
  {
    if ns.Cons? {
      if ns.n.Grp? { PlainGroupCoded(ns.n.g, nocase); }
      PlainCoded(ns.rest, nocase);
    }
  }

  lemma {:induction false} PlainGroupCoded(g: Group, nocase: bool)
    requires ValidGroup(g, nocase)
    ensures CodedGroup(g, nocase)
    decreases g, 0
  {
    PlainCoded(g.b, nocase);
    PlainAltsCoded(g.more, nocase);
  }

  lemma {:induction false} PlainAltsCoded(a: Alts, nocase: bool)
    requires ValidAlts(a, nocase)
    ensures CodedAlts(a, nocase)
    decreases a, 1
  {
    if a.Alt? {
      PlainCoded(a.b, nocase);
      PlainAltsCoded(a.more, nocase);
    }
  }
}
