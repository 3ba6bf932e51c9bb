/** How compile_branch turns items and quantifiers into compiled items. */
module Lowering {
  import opened Bytes
  import opened Code
  import opened Semantics
  import opened Pattern

  // ---------- auto-possessification ----------

  /** The next item is another type escape: check_auto_possessive's last switch. */
  predicate TypeExcludes(op: Byte, next: Byte) {
    if op == OP_DIGIT then next in {OP_NOT_DIGIT, OP_WHITESPACE, OP_NOT_WORDCHAR}
    else if op == OP_NOT_DIGIT then next == OP_DIGIT
    else if op == OP_WHITESPACE then next in {OP_NOT_WHITESPACE, OP_DIGIT, OP_WORDCHAR}
    else if op == OP_NOT_WHITESPACE then next == OP_WHITESPACE
    else if op == OP_WORDCHAR then next in {OP_NOT_WORDCHAR, OP_WHITESPACE}
    else op == OP_NOT_WORDCHAR && next in {OP_WORDCHAR, OP_DIGIT}
  }

  /** check_auto_possessive on the repeated item x and the item y after it. */
  predicate Excludes(x: Single, y: Single) {
    match (x, y)
    case (Lit(a, nocase), Lit(b, _)) => a != b && (nocase ==> a != Fcc(b))
    case (NotLit(a, nocase), Lit(b, _)) => a == b || (nocase && a == Fcc(b))
    case (Type(op), Lit(b, _)) => op != OP_ANY && op != OP_ALLANY && !TypeOk(op, b)
    case (Lit(a, _), Type(op)) => op != OP_ANY && op != OP_ALLANY && !TypeOk(op, a)
    case (Type(op), Type(op')) => TypeExcludes(op, op')
    case _ => false
  }

  /** The text after the next item starts with '*', '?' or "{0,". */
  predicate Optional(q: Quant) { q.Q? && q.min == 0 && q.max != 0 }

  predicate AutoPossess(x: Single, next: Branch) {
    next.Then? && next.i.Atom? && !Optional(next.i.q) && Excludes(x, next.i.x)
  }

  /** The quantifier that is compiled: an unlimited repeat may become possessive. */
  function Possess(x: Single, q: Quant, next: Branch): Quant {
    if q.Q? && q.max < 0 && q.mode != Possessive && AutoPossess(x, next)
    then Q(q.min, q.max, Possessive) else q
  }

  // ---------- atoms ----------

  function ClassKind(q: Quant): Kind
    requires q.Q?
  {
    if q.min == 0 && q.max < 0 then Star(q.mode)
    else if q.min == 1 && q.max < 0 then Plus(q.mode)
    else if q.min == 0 && q.max == 1 then Query(q.mode)
    else Range(q.mode, q.min, q.max)
  }

  /** The optional part after a minimum: * or ? or up to n more. */
  function Extra(x: Single, n: int, mode: Mode, tail: Nodes): Nodes {
    if n < 0 then Cons(Rep(x, Star(mode)), tail)
    else if n == 0 then tail
    else if n == 1 then Cons(Rep(x, Query(mode)), tail)
    else Cons(Rep(x, Upto(mode, n)), tail)
  }

  function Greedily(q: Quant): Quant
    requires q.Q?
  {
    Q(q.min, q.max, Greedy)
  }

  function AtomNodes(x: Single, q: Quant, tail: Nodes): Nodes {
    if Wrapped(x, q) then Cons(Once(RepeatNodes(x, Greedily(q), Nil)), tail) else RepeatNodes(x, q, tail)
  }

  function RepeatNodes(x: Single, q: Quant, tail: Nodes): Nodes {
    match q
    case NoQ => Cons(One(x), tail)
    case Q(min, max, mode) =>
      if max == 0 then tail
      else if x.Class? then Cons(Rep(x, ClassKind(q)), tail)
      else if min == 0 then Extra(x, max, mode, tail)
      else if min == 1 then
        if max < 0 then Cons(Rep(x, Plus(mode)), tail)
        else if max == 1 then Cons(One(x), tail)
        else Cons(One(x), Cons(Rep(x, Upto(mode, max - 1)), tail))
      else Cons(Rep(x, Exact(min)), Extra(x, if max < 0 then -1 else max - min, mode, tail))
  }

  // ---------- could_be_empty_branch ----------

  /** The scan along a branch. A bracket with a zero prefix is skipped; an S
      bracket without one is entered, and its first branch ends the scan. */
  predicate CouldBeEmpty(ns: Nodes) {
    match ns
    case Nil => true
    case Cons(n, rest) =>
      match n
      case Zero(_) => CouldBeEmpty(rest)
      case One(_) => false
      case Rep(_, k) => k.Min() == 0 && CouldBeEmpty(rest)
      case Grp(z, g) =>
        if z != NoPrefix then CouldBeEmpty(rest)
        else if g.s then CouldBeEmpty(g.b)
        else GroupCouldBeEmpty(g) && CouldBeEmpty(rest)
      case Once(ns') => CouldBeEmpty(ns') && CouldBeEmpty(rest)
  }

  predicate GroupCouldBeEmpty(g: Group) { CouldBeEmpty(g.b) || AltsCouldBeEmpty(g.more) }

  predicate AltsCouldBeEmpty(a: Alts) {
    match a
    case NoAlt => false
    case Alt(b, more) => CouldBeEmpty(b) || AltsCouldBeEmpty(more)
  }

  // ---------- groups ----------

  function ZeroPrefix(mode: Mode): Prefix { if mode == Lazy then BraMinZero else BraZero }

  /** The last copy of an unlimited repeat: a repeating ket, and the S form if an
      iteration might match empty. */
  function Unlimited(g: Group, mode: Mode): Group {
    g.(s := GroupCouldBeEmpty(g), ket := if mode == Lazy then KetRMin else KetRMax)
  }

  function Copies(k: nat, g: Group, tail: Nodes): Nodes {
    if k == 0 then tail else Cons(Grp(NoPrefix, g), Copies(k - 1, g, tail))
  }

  /** Up to k copies, each nested in the one before. */
  function Nested(k: nat, g: Group, mode: Mode): Node
    requires k > 0
  {
    if k == 1 then Grp(ZeroPrefix(mode), g)
    else Grp(ZeroPrefix(mode),
             Group(0, false, Cons(Grp(NoPrefix, g), Cons(Nested(k - 1, g, mode), Nil)), NoAlt, Ket))
  }

  function GroupNodes(g: Group, q: Quant, tail: Nodes): Nodes
    requires ValidQuant(q)
  {
    if WrappedGroup(q) then Cons(Once(CopyNodes(g, Greedily(q), Nil)), tail) else CopyNodes(g, q, tail)
  }

  function CopyNodes(g: Group, q: Quant, tail: Nodes): Nodes
    requires ValidQuant(q)
  {
    match q
    case NoQ => Cons(Grp(NoPrefix, g), tail)
    case Q(min, max, mode) =>
      if max == 0 then Cons(Grp(SkipZero, g), tail)
      else if max < 0 then
        if min == 0 then Cons(Grp(ZeroPrefix(mode), Unlimited(g, mode)), tail)
        else Copies(min - 1, g, Cons(Grp(NoPrefix, Unlimited(g, mode)), tail))
      else Copies(min, g, if max > min then Cons(Nested(max - min, g, mode), tail) else tail)
  }

  // ---------- the whole pattern ----------

  function LowerBranch(b: Branch, n: nat, nocase: bool): Nodes
    requires ValidBranch(b, nocase)
    decreases b, 1
  {
    match b
    case Empty => Nil
    case Then(i, rest) =>
      var tail := LowerBranch(rest, n + CountItem(i), nocase);
      match i
      case Assertion(op) => Cons(Zero(op), tail)
      case Atom(x, q) => AtomNodes(x, Possess(x, q, rest), tail)
      case Paren(_, _, _, q) => GroupNodes(LowerGroup(i, n, nocase), q, tail)
  }

  function LowerMore(m: Branches, n: nat, nocase: bool): Alts
    requires ValidMore(m, nocase)
    decreases m, 1
  {
    match m
    case NoMore => NoAlt
    case Or(b, more) => Alt(LowerBranch(b, n, nocase), LowerMore(more, n + Count(b), nocase))
  }

  function LowerGroup(i: Item, n: nat, nocase: bool): Group
    requires ValidItem(i, nocase) && i.Paren?
    decreases i, 0
  {
    var m := Inside(i, n);
    Group(CapOf(i, n), false, LowerBranch(i.b, m, nocase), LowerMore(i.more, m + Count(i.b), nocase), Ket)
  }

  /** The compiled form of the pattern b | more: an outer bracket that captures nothing. */
  function Compile(b: Branch, more: Branches, nocase: bool): Group
    requires ValidBranch(b, nocase) && ValidMore(more, nocase)
  {
    Group(0, false, LowerBranch(b, 0, nocase), LowerMore(more, Count(b), nocase), Ket)
  }
}
