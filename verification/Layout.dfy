/** Where the parts of compiled items lie in the code, and how links lead from one
    part to the next. */
module Layout {
  import opened Bytes
  import opened Code

  // ---------- a byte string inside the code ----------

  predicate Has(code: seq<Byte>, pc: nat, e: seq<Byte>) {
    pc + |e| <= |code| && code[pc..pc + |e|] == e
  }

  lemma HasAt(code: seq<Byte>, pc: nat, e: seq<Byte>, i: nat)
    requires Has(code, pc, e) && i < |e|
    ensures At(code, pc + i) == e[i]
  {
    assert code[pc..pc + |e|][i] == code[pc + i];
  }

  lemma HasSplit(code: seq<Byte>, pc: nat, a: seq<Byte>, b: seq<Byte>)
    requires Has(code, pc, a + b)
    ensures Has(code, pc, a) && Has(code, pc + |a|, b)
  {
    var e := a + b;
    assert code[pc..pc + |a|] == code[pc..pc + |e|][..|a|] == a;
    assert code[pc + |a|..pc + |a| + |b|] == code[pc..pc + |e|][|a|..] == b;
  }

  lemma HasJoin(code: seq<Byte>, pc: nat, a: seq<Byte>, b: seq<Byte>)
    requires Has(code, pc, a) && Has(code, pc + |a|, b)
    ensures Has(code, pc, a + b)
  {
    assert code[pc..pc + |a| + |b|] == code[pc..pc + |a|] + code[pc + |a|..pc + |a| + |b|];
  }

  lemma HasLink(code: seq<Byte>, pc: nat, n: nat)
    requires Has(code, pc, Link(n)) && n < 0x1_0000
    ensures Get(code, pc) == n
  {
    HasAt(code, pc, Link(n), 0);
    HasAt(code, pc, Link(n), 1);
  }

  lemma HasSplit3(code: seq<Byte>, pc: nat, a: seq<Byte>, b: seq<Byte>, c: seq<Byte>)
    requires Has(code, pc, a + b + c)
    ensures Has(code, pc, a) && Has(code, pc + |a|, b) && Has(code, pc + |a| + |b|, c)
  {
    HasSplit(code, pc, a + b, c);
    HasSplit(code, pc, a, b);
  }

  lemma NodesAt(code: seq<Byte>, pc: nat, n: Node, rest: Nodes)
    requires Has(code, pc, EncNodes(Cons(n, rest)))
    ensures Has(code, pc, EncNode(n)) && Has(code, pc + |EncNode(n)|, EncNodes(rest))
    ensures At(code, pc) == EncNode(n)[0] && |EncNodes(Cons(n, rest))| == |EncNode(n)| + |EncNodes(rest)|
  {
    var e, r := EncNode(n), EncNodes(rest);
    assert EncNodes(Cons(n, rest)) == e + r;
    HasSplit(code, pc, e, r);
    HasAt(code, pc, e, 0);
  }

  // ---------- where the parts of a bracket lie ----------

  lemma HeadAt(code: seq<Byte>, pc: nat, g: Group)
    requires Has(code, pc, EncHead(g)) && HeadLen(g) + |EncNodes(g.b)| < 0x1_0000
    ensures At(code, pc) == BraOp(g) && Get(code, pc + 1) == HeadLen(g) + |EncNodes(g.b)|
    ensures g.cap != 0 && g.cap < 0x1_0000 ==> Get(code, pc + 3) == g.cap
  {
    var l, n := Link(HeadLen(g) + |EncNodes(g.b)|), if g.cap == 0 then [] else Link(g.cap);
    HasSplit3(code, pc, [BraOp(g)], l, n);
    HasAt(code, pc, [BraOp(g)], 0);
    HasLink(code, pc + 1, HeadLen(g) + |EncNodes(g.b)|);
    if g.cap != 0 && g.cap < 0x1_0000 { HasLink(code, pc + 3, g.cap); }
  }

  lemma GroupParts(code: seq<Byte>, pc: nat, g: Group)
    requires Has(code, pc, EncGroup(g))
    ensures Has(code, pc, EncHead(g)) && Has(code, pc + HeadLen(g), EncNodes(g.b))
    ensures Has(code, pc + HeadLen(g) + |EncNodes(g.b)|, EncAlts(g.more))
    ensures Has(code, pc + Span(g), [KetOp(g.ket)]) && Has(code, pc + Span(g) + 1, Link(Span(g)))
  {
    var h, b, a, l := EncHead(g), EncNodes(g.b), EncAlts(g.more), Link(Span(g));
    assert EncGroup(g) == h + b + a + [KetOp(g.ket)] + l;
    HasSplit3(code, pc, h + b + a, [KetOp(g.ket)], l);
    HasSplit3(code, pc, h, b, a);
  }

  /** The fields of a bracket: its forward link leads to the end of the first
      branch, its ket's link leads back. */
  lemma GroupAt(code: seq<Byte>, pc: nat, g: Group)
    requires Has(code, pc, EncGroup(g)) && |code| <= MAX_PATTERN_SIZE
    ensures At(code, pc) == BraOp(g) && Get(code, pc + 1) == HeadLen(g) + |EncNodes(g.b)|
    ensures g.cap != 0 && g.cap < 0x1_0000 ==> Get(code, pc + 3) == g.cap
    ensures Has(code, pc + HeadLen(g), EncNodes(g.b))
    ensures Has(code, pc + HeadLen(g) + |EncNodes(g.b)|, EncAlts(g.more))
    ensures At(code, pc + Span(g)) == KetOp(g.ket) && Get(code, pc + Span(g) + 1) == Span(g)
    ensures pc + Span(g) + 3 <= |code|
  {
    GroupParts(code, pc, g);
    HeadAt(code, pc, g);
    HasAt(code, pc + Span(g), [KetOp(g.ket)], 0);
    HasLink(code, pc + Span(g) + 1, Span(g));
  }

  /** An atomic bracket: both its links span it. */
  lemma OnceAt(code: seq<Byte>, pc: nat, e: seq<Byte>)
    requires Has(code, pc, OnceBytes(e)) && |code| <= MAX_PATTERN_SIZE
    ensures var ket := pc + 3 + |e|;
      && At(code, pc) == OP_ONCE && Get(code, pc + 1) == ket - pc && Has(code, pc + 3, e)
      && At(code, ket) == OP_KET && Get(code, ket + 1) == ket - pc && ket + 3 <= |code|
  {
    var l := Link(3 + |e|);
    assert OnceBytes(e) == [OP_ONCE] + (l + (e + ([OP_KET] + l)));
    HasSplit(code, pc, [OP_ONCE], l + (e + ([OP_KET] + l)));
    HasSplit(code, pc + 1, l, e + ([OP_KET] + l));
    HasSplit(code, pc + 3, e, [OP_KET] + l);
    HasSplit(code, pc + 3 + |e|, [OP_KET], l);
    HasAt(code, pc, [OP_ONCE], 0);
    HasAt(code, pc + 3 + |e|, [OP_KET], 0);
    HasLink(code, pc + 1, 3 + |e|);
    HasLink(code, pc + 4 + |e|, 3 + |e|);
  }

  lemma AltLen(b: Nodes, more: Alts)
    ensures |EncAlts(Alt(b, more))| == 3 + |EncNodes(b)| + |EncAlts(more)|
  {
  }

  lemma AltParts(code: seq<Byte>, pc: nat, b: Nodes, more: Alts)
    requires Has(code, pc, EncAlts(Alt(b, more)))
    ensures Has(code, pc, [OP_ALT]) && Has(code, pc + 1, Link(3 + |EncNodes(b)|))
    ensures Has(code, pc + 3, EncNodes(b)) && Has(code, pc + 3 + |EncNodes(b)|, EncAlts(more))
  {
    var e, l, m := EncNodes(b), Link(3 + |EncNodes(b)|), EncAlts(more);
    HasSplit3(code, pc, [OP_ALT] + l, e, m);
    HasSplit(code, pc, [OP_ALT], l);
  }

  lemma AltAt(code: seq<Byte>, pc: nat, b: Nodes, more: Alts)
    requires Has(code, pc, EncAlts(Alt(b, more))) && 0 < pc && |code| <= MAX_PATTERN_SIZE
    ensures At(code, pc) == OP_ALT && Get(code, pc + 1) == 3 + |EncNodes(b)|
    ensures Has(code, pc + 3, EncNodes(b)) && Has(code, pc + 3 + |EncNodes(b)|, EncAlts(more))
  {
    AltParts(code, pc, b, more);
    AltFields(code, pc, 3 + |EncNodes(b)|);
  }

  lemma AltFields(code: seq<Byte>, pc: nat, n: nat)
    requires Has(code, pc, [OP_ALT]) && Has(code, pc + 1, Link(n)) && n < 0x1_0000
    ensures At(code, pc) == OP_ALT && Get(code, pc + 1) == n
  {
    HasAt(code, pc, [OP_ALT], 0);
    HasLink(code, pc + 1, n);
  }

  // ---------- following links ----------

  /** Follow the links from a bracket, or from one of its ALTs, to the ket. */
  function SkipAlts(code: seq<Byte>, pc: nat): (ket: nat)
    ensures pc <= ket
    decreases |code| - pc
  {
    var next := pc + Get(code, pc + 1);
    if pc >= |code| || next == pc then |code| + pc
    else if At(code, next) == OP_ALT then SkipAlts(code, next) else next
  }

  lemma SkipStep(code: seq<Byte>, pc: nat, next: nat)
    requires pc < |code| && Get(code, pc + 1) == next - pc && pc < next
    ensures SkipAlts(code, pc) == if At(code, next) == OP_ALT then SkipAlts(code, next) else next
  {
  }

  lemma {:induction false} SkipAltsEnd(code: seq<Byte>, pc: nat, b: Nodes, more: Alts, ket: nat)
    requires Has(code, pc, EncAlts(Alt(b, more))) && pc + |EncAlts(Alt(b, more))| == ket
    requires At(code, ket) != OP_ALT && 0 < pc && |code| <= MAX_PATTERN_SIZE
    ensures At(code, pc) == OP_ALT && SkipAlts(code, pc) == ket && pc < ket
    decreases more
  {
    AltAt(code, pc, b, more);
    AltLen(b, more);
    var next := pc + 3 + |EncNodes(b)|;
    SkipStep(code, pc, next);
    if more == NoAlt {
      assert next == ket;
    } else {
      SkipAltsEnd(code, next, more.b, more.more, ket);
    }
  }

  lemma SkipGroup(code: seq<Byte>, pc: nat, g: Group)
    requires Has(code, pc, EncGroup(g)) && |code| <= MAX_PATTERN_SIZE
    ensures SkipAlts(code, pc) == pc + Span(g)
  {
    GroupAt(code, pc, g);
    var next := pc + HeadLen(g) + |EncNodes(g.b)|;
    SkipStep(code, pc, next);
    if g.more == NoAlt {
      assert next == pc + Span(g);
    } else {
      SkipAltsEnd(code, next, g.more.b, g.more.more, pc + Span(g));
    }
  }
}
