/** Which patterns are found to be anchored, or to begin at the start of a line: as
    patterns are written. */
module Anchored {
  import opened Bytes
  import opened Code
  import opened Semantics
  import opened Pattern
  import opened Lowering
  import opened Emptiness
  import opened Anchors

  /** The branch begins with ^ (if circ), with \A (if sod), with an unlimited optional
      repeat of the type dot, or with a group of such branches that is passed through: it
      must be there, not possessive, and if it repeats by + it must not seem empty. An item
      removed by {0} does not count. */
  predicate Heads(b: Branch, n: nat, nocase: bool, dot: Byte, circ: bool, sod: bool)
    requires ValidBranch(b, nocase)
    decreases b, 1
  {
    b.Then? && match b.i
      case Assertion(op) => (circ && op == OP_CIRC) || (sod && op == OP_SOD)
      case Atom(x, q) =>
        if q.Q? && q.max == 0 then Heads(b.rest, n, nocase, dot, circ, sod) else x == Type(dot) && q.Q? && q.min == 0 && q.max < 0
      case Paren(_, _, _, q) => Passed(LowerGroup(b.i, n, nocase), q) && HeadsGroup(b.i, n, nocase, dot, circ, sod)
  }

  predicate Passed(g: Group, q: Quant) {
    q.Q? ==> q.min > 0 && q.max != 0 && q.mode != Possessive && !(q.min == 1 && q.max < 0 && GroupCouldBeEmpty(g))
  }

  predicate HeadsGroup(i: Item, n: nat, nocase: bool, dot: Byte, circ: bool, sod: bool)
    requires ValidItem(i, nocase) && i.Paren?
    decreases i, 0
  {
    Heads(i.b, Inside(i, n), nocase, dot, circ, sod) && HeadsMore(i.more, Inside(i, n) + Count(i.b), nocase, dot, circ, sod)
  }

  predicate HeadsMore(m: Branches, n: nat, nocase: bool, dot: Byte, circ: bool, sod: bool)
    requires ValidMore(m, nocase)
    decreases m, 1
  {
    m.Or? ==> Heads(m.b, n, nocase, dot, circ, sod) && HeadsMore(m.more, n + Count(m.b), nocase, dot, circ, sod)
  }

  lemma AtomHead(x: Single, q: Quant, next: Branch, tail: Nodes, dot: Byte, circ: bool, sod: bool)
    requires ValidQuant(q)
    ensures Leading(AtomNodes(x, Possess(x, q, next), tail), dot, circ, sod) <==>
      if q.Q? && q.max == 0 then Leading(tail, dot, circ, sod) else x == Type(dot) && q.Q? && q.min == 0 && q.max < 0
  {
    hide AutoPossess;
  }

  lemma GroupHead(g: Group, q: Quant, tail: Nodes, dot: Byte, circ: bool, sod: bool)
    requires ValidQuant(q) && g.ket == Ket && !g.s
    ensures Leading(GroupNodes(g, q, tail), dot, circ, sod) <==> Passed(g, q) && LeadingGroup(g, dot, circ, sod)
  {
    hide GroupCouldBeEmpty;
  }

  lemma {:induction false} HeadsIff(b: Branch, n: nat, nocase: bool, dot: Byte, circ: bool, sod: bool)
    requires ValidBranch(b, nocase)
    ensures Leading(LowerBranch(b, n, nocase), dot, circ, sod) <==> Heads(b, n, nocase, dot, circ, sod)
    decreases b, 1
  {
    hide Leading, LeadingGroup, Passed, AtomNodes, GroupNodes, LowerGroup, HeadsGroup;
    if b.Then? {
      var i, tail := b.i, LowerBranch(b.rest, n + CountItem(b.i), nocase);
      match i
      case Assertion(op) => ZeroHead(op, tail, dot, circ, sod);
      case Atom(x, q) =>
        AtomHead(x, q, b.rest, tail, dot, circ, sod);
        HeadsIff(b.rest, n, nocase, dot, circ, sod);
      case Paren(_, _, _, q) =>
        PlainGroup(i, n, nocase);
        GroupHead(LowerGroup(i, n, nocase), q, tail, dot, circ, sod);
        HeadsGroupIff(i, n, nocase, dot, circ, sod);
    } else {
      NilHead(dot, circ, sod);
    }
  }

  lemma ZeroHead(op: Byte, tail: Nodes, dot: Byte, circ: bool, sod: bool)
    ensures Leading(Cons(Zero(op), tail), dot, circ, sod) <==> (circ && op == OP_CIRC) || (sod && op == OP_SOD)
  {
  }

  lemma NilHead(dot: Byte, circ: bool, sod: bool)
    ensures !Leading(Nil, dot, circ, sod)
  {
  }

  lemma PlainGroup(i: Item, n: nat, nocase: bool)
    requires ValidItem(i, nocase) && i.Paren?
    ensures var g := LowerGroup(i, n, nocase); g.ket == Ket && !g.s && ValidQuant(i.q)
  {
  }

  lemma {:induction false} HeadsGroupIff(i: Item, n: nat, nocase: bool, dot: Byte, circ: bool, sod: bool)
    requires ValidItem(i, nocase) && i.Paren?
    ensures LeadingGroup(LowerGroup(i, n, nocase), dot, circ, sod) <==> HeadsGroup(i, n, nocase, dot, circ, sod)
    decreases i, 0
  {
    hide Leading, Heads, HeadsMore, LowerBranch, LowerMore, LeadingAlts;
    HeadsIff(i.b, Inside(i, n), nocase, dot, circ, sod);
    HeadsMoreIff(i.more, Inside(i, n) + Count(i.b), nocase, dot, circ, sod);
  }

  lemma {:induction false} HeadsMoreIff(m: Branches, n: nat, nocase: bool, dot: Byte, circ: bool, sod: bool)
    requires ValidMore(m, nocase)
    ensures LeadingAlts(LowerMore(m, n, nocase), dot, circ, sod) <==> HeadsMore(m, n, nocase, dot, circ, sod)
    decreases m, 1
  {
    hide Leading, Heads, LowerBranch;
    if m.Or? {
      HeadsIff(m.b, n, nocase, dot, circ, sod);
      HeadsMoreIff(m.more, n + Count(m.b), nocase, dot, circ, sod);
    }
  }

  /** What the analysis of the code says about a pattern. */
  lemma LeadingIff(b: Branch, more: Branches, nocase: bool, dot: Byte, circ: bool, sod: bool)
    requires ValidBranch(b, nocase) && ValidMore(more, nocase)
    ensures LeadingGroup(Compile(b, more, nocase), dot, circ, sod) <==>
      Heads(b, 0, nocase, dot, circ, sod) && HeadsMore(more, Count(b), nocase, dot, circ, sod)
  {
    hide Leading, Heads, HeadsMore, LowerBranch, LowerMore, LeadingAlts;
    HeadsIff(b, 0, nocase, dot, circ, sod);
    HeadsMoreIff(more, Count(b), nocase, dot, circ, sod);
  }
}
