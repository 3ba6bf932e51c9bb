/** The discarding pre-compile pass: the length it accumulates, and why that is
    never less than what the real pass emits. */
module PreCompile {
  import opened Bytes
  import opened Code
  import opened Layout
  import opened Pattern
  import opened Lowering

  // ---------- bytes of lowered items, up to what follows them ----------

  function Times(k: nat, e: seq<Byte>): (s: seq<Byte>)
    ensures |s| == k * |e|
  {
    if k == 0 then [] else
      assert k * |e| == |e| + (k - 1) * |e|;
      e + Times(k - 1, e)
  }

  lemma {:induction false} TimesSnoc(k: nat, e: seq<Byte>)
    ensures Times(k + 1, e) == Times(k, e) + e
    decreases k
  {
    if k > 0 { TimesSnoc(k - 1, e); }
  }

  function AtomBytes(x: Single, q: Quant): seq<Byte> { EncNodes(AtomNodes(x, q, Nil)) }

  function GroupBytes(g: Group, q: Quant): seq<Byte>
    requires ValidQuant(q)
  {
    EncNodes(GroupNodes(g, q, Nil))
  }

  /** What a quantifier makes of x, without the atomic bracket. */
  function RepeatBytes(x: Single, q: Quant): seq<Byte> { EncNodes(RepeatNodes(x, q, Nil)) }

  lemma AtomBytesAre(x: Single, q: Quant)
    ensures AtomBytes(x, q) == Enclosed(Wrapped(x, q), RepeatBytes(x, if Wrapped(x, q) then Greedily(q) else q))
  {
    hide EncNodes, EncNode, RepeatNodes;
    if Wrapped(x, q) {
      var n := Once(RepeatNodes(x, Greedily(q), Nil));
      ConsTail(n, Nil);
      OnceNode(n);
    }
  }

  lemma ConsTail(n: Node, tail: Nodes)
    ensures EncNodes(Cons(n, tail)) == EncNodes(Cons(n, Nil)) + EncNodes(tail)
    ensures EncNodes(Cons(n, Nil)) == EncNode(n)
  {
    hide EncNode;
    assert EncNodes(Nil) == [];
  }

  lemma AtomTail(x: Single, q: Quant, tail: Nodes)
    ensures EncNodes(AtomNodes(x, q, tail)) == AtomBytes(x, q) + EncNodes(tail)
  {
    hide EncNode, EncNodes, RepeatNodes;
    if Wrapped(x, q) {
      ConsTail(Once(RepeatNodes(x, Greedily(q), Nil)), tail);
    } else {
      RepeatTail(x, q, tail);
    }
  }

  lemma RepeatTail(x: Single, q: Quant, tail: Nodes)
    ensures EncNodes(RepeatNodes(x, q, tail)) == EncNodes(RepeatNodes(x, q, Nil)) + EncNodes(tail)
  {
    hide EncNode, EncNodes;
    Nothing();
    var a, b := RepeatNodes(x, q, Nil), RepeatNodes(x, q, tail);
    if a == Nil {
      assert b == tail;
    } else {
      assert b.n == a.n;
      ConsTail(b.n, b.rest);
      ConsTail(a.n, a.rest);
      if a.rest == Nil {
        assert b.rest == tail;
      } else {
        assert b.rest.n == a.rest.n && b.rest.rest == tail && a.rest.rest == Nil;
        ConsTail(b.rest.n, tail);
        ConsTail(a.rest.n, Nil);
      }
    }
  }

  lemma Nothing()
    ensures EncNodes(Nil) == []
  {
  }

  lemma {:induction false} CopiesBytes(k: nat, g: Group, tail: Nodes)
    ensures EncNodes(Copies(k, g, tail)) == Times(k, EncGroup(g)) + EncNodes(tail)
    decreases k
  {
    hide EncGroup;
    if k > 0 {
      CopiesBytes(k - 1, g, tail);
      ConsTail(Grp(NoPrefix, g), Copies(k - 1, g, tail));
      assert EncNode(Grp(NoPrefix, g)) == EncGroup(g);
    }
  }

  /** In an atomic bracket if need be. */
  function Enclosed(wrapped: bool, e: seq<Byte>): seq<Byte> { if wrapped then OnceBytes(e) else e }

  /** The copies that a quantifier makes of g. */
  function CopyBytes(g: Group, q: Quant): seq<Byte>
    requires ValidQuant(q)
  {
    EncNodes(CopyNodes(g, q, Nil))
  }

  lemma GroupBytesAre(g: Group, q: Quant)
    requires ValidQuant(q)
    ensures GroupBytes(g, q) == Enclosed(WrappedGroup(q), CopyBytes(g, if WrappedGroup(q) then Greedily(q) else q))
  {
    hide EncNodes, EncNode, CopyNodes;
    if WrappedGroup(q) {
      var n := Once(CopyNodes(g, Greedily(q), Nil));
      ConsTail(n, Nil);
      OnceNode(n);
    }
  }

  lemma OnceNode(n: Node)
    requires n.Once?
    ensures EncNode(n) == OnceBytes(EncNodes(n.ns))
  {
  }

  lemma GroupTail(g: Group, q: Quant, tail: Nodes)
    requires ValidQuant(q)
    ensures EncNodes(GroupNodes(g, q, tail)) == GroupBytes(g, q) + EncNodes(tail)
  {
    hide EncNodes, EncNode, CopyNodes;
    if WrappedGroup(q) {
      ConsTail(Once(CopyNodes(g, Greedily(q), Nil)), tail);
    } else {
      CopyTail(g, q, tail);
    }
  }

  lemma CopyTail(g: Group, q: Quant, tail: Nodes)
    requires ValidQuant(q)
    ensures EncNodes(CopyNodes(g, q, tail)) == CopyBytes(g, q) + EncNodes(tail)
  {
    hide EncNodes, EncNode, Copies;
    Nothing();
    match q
    case NoQ => ConsTail(Grp(NoPrefix, g), tail);
    case Q(min, max, mode) =>
      if max == 0 {
        ConsTail(Grp(SkipZero, g), tail);
      } else if max < 0 {
        var u := Unlimited(g, mode);
        if min == 0 {
          ConsTail(Grp(ZeroPrefix(mode), u), tail);
        } else {
          ConsTail(Grp(NoPrefix, u), tail);
          CopiesBytes(min - 1, g, Cons(Grp(NoPrefix, u), tail));
          CopiesBytes(min - 1, g, Cons(Grp(NoPrefix, u), Nil));
        }
      } else if max > min {
        ConsTail(Nested(max - min, g, mode), tail);
        CopiesBytes(min, g, Cons(Nested(max - min, g, mode), tail));
        CopiesBytes(min, g, Cons(Nested(max - min, g, mode), Nil));
      } else {
        CopiesBytes(min, g, tail);
        CopiesBytes(min, g, Nil);
      }
  }

  // ---------- the accumulated length ----------

  /** An item costs what it takes itself, and what its repeat takes beyond that. */
  function PreAtom(x: Single, q: Quant, next: Branch): nat {
    var own, all := |EncOne(x)|, |AtomBytes(x, Possess(x, q, next))|;
    if all > own then all else own
  }

  /** What max more nested copies take: the last one does not nest. */
  function Delta(max: nat, len: nat): (d: nat)
    requires max > 0
    ensures d == max * (len + 7) - 6
  {
    assert max * (len + 7) == (max - 1) * (len + 7) + len + 7;
    max * (len + 1 + 2 + 2 * LINK_SIZE) - 2 - 2 * LINK_SIZE
  }

  /** What k more copies take. */
  function Copied(k: nat, len: nat): nat { k * len }

  /** A group of length len, with its quantifier, and the atomic bracket around it. */
  function PreRepeat(len: nat, q: Quant): nat
    requires ValidQuant(q) && len >= 6
  {
    PreCopies(len, q) + if WrappedGroup(q) then 2 + 2 * LINK_SIZE else 0
  }

  function PreCopies(len: nat, q: Quant): nat
    requires ValidQuant(q) && len >= 6
  {
    match q
    case NoQ => len
    case Q(min, max, _) =>
      if min == 0 then
        if max <= 1 then len + 1 else len + 7 + Delta(max - 1, len)
      else
        len + Copied(min - 1, len) + (if max > min then Delta(max - min, len) else 0)
  }

  function PreBranch(b: Branch, nocase: bool): nat
    requires ValidBranch(b, nocase)
    decreases b, 1
  {
    match b
    case Empty => 0
    case Then(i, rest) =>
      (match i
       case Assertion(_) => 1
       case Atom(x, q) => PreAtom(x, q, rest)
       case Paren(_, _, _, q) => PreRepeat(PreGroup(i, nocase), q)) + PreBranch(rest, nocase)
  }

  function PreMore(m: Branches, nocase: bool): nat
    requires ValidMore(m, nocase)
    decreases m, 1
  {
    match m
    case NoMore => 0
    case Or(b, more) => 3 + PreBranch(b, nocase) + PreMore(more, nocase)
  }

  function PreGroup(i: Item, nocase: bool): (n: nat)
    requires ValidItem(i, nocase) && i.Paren?
    ensures n >= 6
    decreases i, 0
  {
    (if i.capturing then 8 else 6) + PreBranch(i.b, nocase) + PreMore(i.more, nocase)
  }

  /** The length that pass 1 asks for: one byte for END, and the outer bracket. */
  function PreLength(b: Branch, more: Branches, nocase: bool): nat
    requires ValidBranch(b, nocase) && ValidMore(more, nocase)
  {
    1 + 6 + PreBranch(b, nocase) + PreMore(more, nocase)
  }

  // ---------- what it counts too much ----------

  /** How often a group with this quantifier is written. */
  function Writings(q: Quant): nat {
    match q
    case NoQ => 1
    case Q(min, max, _) => if max < 0 then (if min == 0 then 1 else min) else if max == 0 then 1 else max
  }

  /** A single item that {0} removes has been counted, once for every time that the
      groups around it are written. */
  function Removed(b: Branch): nat {
    match b
    case Empty => 0
    case Then(i, rest) => RemovedItem(i) + Removed(rest)
  }

  function RemovedItem(i: Item): nat {
    match i
    case Assertion(_) => 0
    case Atom(x, q) => if q.Q? && q.max == 0 then |EncOne(x)| else 0
    case Paren(_, b, more, q) => Writings(q) * (Removed(b) + RemovedMore(more))
  }

  function RemovedMore(m: Branches): nat {
    match m
    case NoMore => 0
    case Or(b, more) => Removed(b) + RemovedMore(more)
  }

  // ---------- apart from that it is exact ----------

  lemma {:induction false} NestedLen(k: nat, g: Group, mode: Mode)
    requires k > 0
    ensures |EncNode(Nested(k, g, mode))| + 6 == k * (|EncGroup(g)| + 7)
    decreases k
  {
    hide EncGroup, EncNodes;
    var len := |EncGroup(g)|;
    if k > 1 {
      NestedLen(k - 1, g, mode);
      var n := Nested(k - 1, g, mode);
      var b := Cons(Grp(NoPrefix, g), Cons(n, Nil));
      ConsTail(Grp(NoPrefix, g), Cons(n, Nil));
      ConsTail(n, Nil);
      PlainSpan(b);
      assert EncNode(Grp(NoPrefix, g)) == EncGroup(g);
      assert k * (len + 7) == (k - 1) * (len + 7) + len + 7;
    }
  }

  lemma PlainSpan(b: Nodes)
    ensures Span(Group(0, false, b, NoAlt, Ket)) == 3 + |EncNodes(b)|
  {
    assert EncAlts(NoAlt) == [];
  }

  /** S forms and repeating kets take no more room than plain ones. */
  lemma UnlimitedLen(g: Group, mode: Mode)
    ensures |EncGroup(Unlimited(g, mode))| == |EncGroup(g)|
  {
    hide EncNodes, EncAlts, GroupCouldBeEmpty;
  }

  lemma GroupLen(g: Group, q: Quant, len: nat)
    requires ValidQuant(q) && |EncGroup(g)| <= len && 6 <= len
    ensures PreRepeat(len, q) == |GroupBytes(g, q)| + Writings(q) * (len - |EncGroup(g)|)
    ensures WrappedGroup(q) ==> |CopyBytes(g, Greedily(q))| + 6 <= PreRepeat(len, q)
  {
    hide EncGroup, CopyBytes, GroupBytes, Writings, PreCopies;
    GroupBytesAre(g, q);
    CopyLen(g, if WrappedGroup(q) then Greedily(q) else q, len);
    if q.Q? { AnyMode(len, q); }
  }

  lemma AnyMode(len: nat, q: Quant)
    requires ValidQuant(q) && q.Q? && 6 <= len
    ensures Writings(Greedily(q)) == Writings(q) && PreCopies(len, Greedily(q)) == PreCopies(len, q)
  {
  }

  lemma CopyLen(g: Group, q: Quant, len: nat)
    requires ValidQuant(q) && |EncGroup(g)| <= len && 6 <= len
    ensures PreCopies(len, q) == |CopyBytes(g, q)| + Writings(q) * (len - |EncGroup(g)|)
  {
    hide EncGroup, EncNodes, Unlimited, Nested;
    var l := |EncGroup(g)|;
    Nothing();
    match q
    case NoQ => ConsTail(Grp(NoPrefix, g), Nil);
    case Q(min, max, mode) =>
      var u := Unlimited(g, mode);
      UnlimitedLen(g, mode);
      if max == 0 {
        ConsTail(Grp(SkipZero, g), Nil);
      } else if max < 0 {
        if min == 0 {
          ConsTail(Grp(ZeroPrefix(mode), u), Nil);
        } else {
          CopiesBytes(min - 1, g, Cons(Grp(NoPrefix, u), Nil));
          ConsTail(Grp(NoPrefix, u), Nil);
          Multiply(min, l, len);
        }
      } else {
        var extra := if max > min then Cons(Nested(max - min, g, mode), Nil) else Nil;
        CopiesBytes(min, g, extra);
        if max > min {
          NestedLen(max - min, g, mode);
          ConsTail(Nested(max - min, g, mode), Nil);
          Multiply(max - min, l, len);
        }
        Multiply(min, l, len);
        CountedLen(min, max, l, len);
      }
  }

  lemma Multiply(k: nat, a: nat, b: nat)
    ensures k > 0 ==> k * b == (k - 1) * b + b && k * a == (k - 1) * a + a
    ensures k * (b - a) == k * b - k * a && k * (a + 7) == k * a + 7 * k && k * (b + 7) == k * b + 7 * k
  {
    if k > 0 { assert k * b == (k - 1) * b + b && k * a == (k - 1) * a + a; }
  }

  /** The sums of the two ways of counting agree. */
  lemma CountedLen(min: nat, max: nat, l: nat, len: nat)
    requires min <= max && 0 < max < 0x1_0000 && 6 <= len && l <= len
    ensures PreCopies(len, Q(min, max, Greedy)) == min * l + (if max > min then (max - min) * (l + 7) - 6 else 0) + max * (len - l)
  {
    Multiply(min, l, len);
    Multiply(max, l, len);
    Multiply(max - 1, l, len);
    Multiply(max - min, l, len);
    assert max * (len - l) == min * (len - l) + (max - min) * (len - l);
  }

  lemma {:induction false} BranchFits(b: Branch, n: nat, nocase: bool)
    requires ValidBranch(b, nocase)
    ensures PreBranch(b, nocase) == |EncNodes(LowerBranch(b, n, nocase))| + Removed(b)
    decreases b, 1
  {
    hide AtomNodes, GroupNodes, LowerGroup, EncNodes, PreGroup, PreAtom, PreRepeat;
    match b
    case Empty => Nothing();
    case Then(i, rest) =>
      var tail := LowerBranch(rest, n + CountItem(i), nocase);
      BranchFits(rest, n + CountItem(i), nocase);
      match i
      case Assertion(op) => ConsTail(Zero(op), tail);
      case Atom(x, q) =>
        AtomTail(x, Possess(x, q, rest), tail);
        AtomFits(x, q, rest);
      case Paren(_, _, _, q) =>
        GroupFits(i, n, nocase);
        GroupTail(LowerGroup(i, n, nocase), q, tail);
        GroupLen(LowerGroup(i, n, nocase), q, PreGroup(i, nocase));
  }

  lemma AtomFits(x: Single, q: Quant, next: Branch)
    ensures PreAtom(x, q, next) == |AtomBytes(x, Possess(x, q, next))| + if q.Q? && q.max == 0 then |EncOne(x)| else 0
  {
    hide AutoPossess;
    AtomLong(x, Possess(x, q, next));
  }

  /** What a quantifier makes of an item is no shorter than the item, or nothing. */
  lemma AtomLong(x: Single, q: Quant)
    ensures if q.Q? && q.max == 0 then AtomBytes(x, q) == [] else |AtomBytes(x, q)| >= |EncOne(x)|
  {
    AtomBytesAre(x, q);
    hide AtomBytes;
    var p := if Wrapped(x, q) then Greedily(q) else q;
    var ns := RepeatNodes(x, p, Nil);
    Nothing();
    if ns.Cons? { ConsTail(ns.n, ns.rest); }
  }

  lemma {:induction false} MoreFits(m: Branches, n: nat, nocase: bool)
    requires ValidMore(m, nocase)
    ensures PreMore(m, nocase) == |EncAlts(LowerMore(m, n, nocase))| + RemovedMore(m)
    decreases m, 1
  {
    hide EncNodes, LowerBranch, PreBranch;
    if m.Or? {
      BranchFits(m.b, n, nocase);
      MoreFits(m.more, n + Count(m.b), nocase);
    }
  }

  lemma {:induction false} GroupFits(i: Item, n: nat, nocase: bool)
    requires ValidItem(i, nocase) && i.Paren?
    ensures PreGroup(i, nocase) == |EncGroup(LowerGroup(i, n, nocase))| + Removed(i.b) + RemovedMore(i.more)
    decreases i, 0
  {
    hide EncNodes, EncAlts, LowerBranch, LowerMore, PreBranch, PreMore;
    var m := Inside(i, n);
    BranchFits(i.b, m, nocase);
    MoreFits(i.more, m + Count(i.b), nocase);
  }

  /** A group and its copies fit in what has been counted. */
  lemma GroupRoom(i: Item, n: nat, nocase: bool)
    requires ValidItem(i, nocase) && i.Paren?
    ensures var g, len := LowerGroup(i, n, nocase), PreGroup(i, nocase);
      |EncGroup(g)| <= len && |GroupBytes(g, i.q)| <= PreRepeat(len, i.q) &&
      (WrappedGroup(i.q) ==> |CopyBytes(g, Greedily(i.q))| + 6 <= PreRepeat(len, i.q))
  {
    hide LowerGroup, PreGroup, PreRepeat, EncGroup, GroupBytes, CopyBytes, Writings, Removed, RemovedMore;
    var g, len := LowerGroup(i, n, nocase), PreGroup(i, nocase);
    GroupFits(i, n, nocase);
    GroupSix(i, nocase);
    GroupLen(g, i.q, len);
    NotLess(Writings(i.q), len - |EncGroup(g)|);
  }

  lemma GroupSix(i: Item, nocase: bool)
    requires ValidItem(i, nocase) && i.Paren?
    ensures PreGroup(i, nocase) >= 6 && ValidQuant(i.q)
  {
  }

  lemma NotLess(a: nat, b: nat)
    ensures a * b >= 0
  {
  }

  /** The real pass emits what the pre-compile pass asked for, but for the items that
      {0} removes. */
  lemma LengthSuffices(b: Branch, more: Branches, nocase: bool)
    requires ValidBranch(b, nocase) && ValidMore(more, nocase)
    ensures PreLength(b, more, nocase) == |EncProgram(Compile(b, more, nocase))| + Removed(b) + RemovedMore(more)
  {
    hide EncNodes, EncAlts, LowerBranch, LowerMore, PreBranch, PreMore;
    BranchFits(b, 0, nocase);
    MoreFits(more, Count(b), nocase);
  }

  // ---------- the pass itself ----------

  /** Compiled items are discarded: the class keeps the place where the next one goes
      in the work space, the place up to which bytes are counted, the start of the item
      that a quantifier would apply to (-1 if there is none), and the length so far. */
  class PrePass {
    const nocase: bool
    var code: nat
    var lastCode: nat
    var previous: int
    var length: nat

    constructor (nocase: bool, length: nat)
      ensures this.nocase == nocase && Sum() == length && Sane() && code == lastCode == 0
    {
      this.nocase, this.length := nocase, length;
      code, lastCode, previous := 0, 0, -1;
    }

    ghost predicate Sane()
      reads this
    {
      previous <= code
    }

    /** The length once the bytes since lastCode are counted. */
    ghost function Sum(): nat
      reads this
    {
      length + if code > lastCode then code - lastCode else 0
    }

    /** At each character of the pattern: count the bytes since the last one, never
        less than none, and move the previous item to the start of the work space. */
    method NextCycle()
      requires Sane()
      modifies this`code, this`lastCode, this`previous, this`length
      ensures Sane() && length == Sum() == old(Sum()) && lastCode == code
      ensures if old(previous) < 0 then previous == old(previous) && code == 0
              else previous == 0 && code == (if old(code) < old(lastCode) then old(lastCode) else old(code)) - old(previous)
    {
      if code < lastCode { code := lastCode; }
      length := length + (code - lastCode);
      if previous >= 0 {
        code := code - previous;
        previous := 0;
      } else {
        code := 0;
      }
      lastCode := code;
    }

    method Branch(b0: Branch)
      requires ValidBranch(b0, nocase) && Sane()
      modifies this`code, this`lastCode, this`previous, this`length
      ensures Sane() && Sum() == old(Sum()) + PreBranch(b0, nocase)
      decreases b0, 1
    {
      var b := b0;
      while b.Then?
        invariant ValidBranch(b, nocase) && Sane()
        invariant Sum() + PreBranch(b, nocase) == old(Sum()) + PreBranch(b0, nocase)
        invariant b == b0 || b < b0
        decreases b
      {
        NextCycle();
        match b.i {
          case Assertion(_) =>
            previous := -1;
            code := code + 1;
          case Atom(x, q) =>
            Atom(x, q, b.rest);
          case Paren(_, _, _, q) =>
            var len := Group(b.i);
            Repeat(len, q);
        }
        b := b.rest;
      }
    }

    method Atom(x: Single, q: Quant, next: Branch)
      requires Sane() && code == lastCode
      modifies this`code, this`lastCode, this`previous, this`length
      ensures Sane() && Sum() == old(Sum()) + PreAtom(x, q, next)
    {
      hide EncOne, AtomNodes, EncNodes;
      previous := code;
      code := code + |EncOne(x)|;
      if q.NoQ? {
        OneBytes(x);
        return;
      }
      NextCycle();
      code := previous + |AtomBytes(x, Possess(x, q, next))|;
      previous := -1;
    }

    /** The group's own length goes to the total; in the work space it is reduced to
        an empty pair of brackets. */
    method Group(i: Item) returns (len: nat)
      requires i.Paren? && ValidItem(i, nocase) && Sane() && code == lastCode
      modifies this`code, this`previous, this`length
      ensures Sane() && len == PreGroup(i, nocase) && previous == old(code) && code == lastCode + 6 == old(lastCode) + 6
      ensures Sum() == old(Sum()) + len
      decreases i, 0
    {
      var inner := new PrePass(nocase, 2 + 2 * LINK_SIZE + if i.capturing then 2 else 0);
      inner.Branch(i.b);
      inner.NextCycle();
      var m := i.more;
      while m.Or?
        invariant ValidMore(m, nocase) && inner.Sane() && fresh(inner)
        invariant inner.Sum() + PreMore(m, nocase) == PreGroup(i, nocase)
        invariant unchanged(this) && (m == i.more || m < i.more)
        decreases m
      {
        inner.length := inner.length + 1 + LINK_SIZE;
        inner.Branch(m.b);
        m := m.more;
      }
      inner.NextCycle();
      len := inner.length;
      previous := code;
      length := length + (len - 2 - 2 * LINK_SIZE);
      code := code + 2 + 2 * LINK_SIZE;
    }

    /** The quantifier of a group: copies are counted, not made. */
    method Repeat(len: nat, q: Quant)
      requires ValidQuant(q) && len >= 6 && 0 <= previous == lastCode && code == lastCode + 6
      modifies this`code, this`lastCode, this`previous, this`length
      ensures Sane() && Sum() == old(Sum()) - len + PreRepeat(len, q)
    {
      if q.NoQ? { return; }
      NextCycle();
      var copies, bytes := Growth(len, q);
      length := length + copies;
      code := code + bytes;
      previous := -1;
    }
  }

  /** What the quantifier adds to the length at once (copies), and what it writes. */
  method Growth(len: nat, q: Quant) returns (copies: nat, bytes: nat)
    requires ValidQuant(q) && q.Q? && len >= 6
    ensures len + copies + bytes == PreRepeat(len, q)
  {
    hide Copied, Delta;
    var max, pending := q.max, 0;
    copies, bytes := 0, 0;
    if q.min == 0 {
      if max <= 1 { bytes := 1; } else { bytes, pending := 2 + LINK_SIZE, 1; }
      max := max - 1;
    } else {
      if q.min > 1 { copies := Copied(q.min - 1, len); } else { OneCopy(len); }
      if max > 0 { max := max - q.min; }
    }
    if max > 0 { copies := copies + Delta(max, len); }
    if max >= 0 && pending > 0 { bytes := bytes + 1 + LINK_SIZE; }
    if q.mode == Possessive && q.max != 0 { bytes := bytes + 2 * (1 + LINK_SIZE); }
  }

  lemma OneCopy(len: nat)
    ensures Copied(0, len) == 0
  {
  }

  lemma OneBytes(x: Single)
    ensures AtomBytes(x, NoQ) == EncOne(x)
  {
    ConsTail(One(x), Nil);
  }

  /** The first pass over a whole pattern. */
  method Measure(b: Branch, more: Branches, nocase: bool) returns (length: nat)
    requires ValidBranch(b, nocase) && ValidMore(more, nocase)
    ensures length == PreLength(b, more, nocase)
  {
    var pass := new PrePass(nocase, 0);
    length := pass.Group(Paren(false, b, more, NoQ));
    length := 1 + length;
  }
}
