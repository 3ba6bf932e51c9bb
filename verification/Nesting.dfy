/** Counted repeats of groups: copies, nested optional copies with brackets that are
    still pending, and the repeating last copy. */
module Nesting {
  import opened Bytes
  import opened Code
  import opened Layout
  import opened Pattern
  import opened Lowering
  import opened PreCompile
  import opened Chains

  // ---------- what the quantifiers make of a group ----------

  function ZeroOp(mode: Mode): Byte { if mode == Lazy then OP_BRAMINZERO else OP_BRAZERO }

  function NestedBytes(k: nat, g: Group, mode: Mode): seq<Byte> {
    if k == 0 then [] else EncNode(Nested(k, g, mode))
  }

  /** The repeating copy, and the copies before it. */
  function LastBytes(min: nat, g: Group, mode: Mode): seq<Byte> {
    (if min == 0 then [ZeroOp(mode)] else Times(min - 1, EncGroup(g))) + EncGroup(Unlimited(g, mode))
  }

  lemma GroupForm(g: Group, min: nat, max: int, mode: Mode)
    requires ValidQuant(Q(min, max, mode))
    ensures CopyBytes(g, Q(min, max, mode)) ==
      if max == 0 then [OP_SKIPZERO] + EncGroup(g)
      else if max < 0 then LastBytes(min, g, mode)
      else Times(min, EncGroup(g)) + NestedBytes(max - min, g, mode)
  {
    hide EncGroup, EncNodes, Unlimited, Nested;
    var u := Unlimited(g, mode);
    Nothing();
    if max == 0 {
      ConsTail(Grp(SkipZero, g), Nil);
    } else if max < 0 {
      ConsTail(Grp(ZeroPrefix(mode), u), Nil);
      ConsTail(Grp(NoPrefix, u), Nil);
      if min > 0 { CopiesBytes(min - 1, g, Cons(Grp(NoPrefix, u), Nil)); }
    } else if max > min {
      ConsTail(Nested(max - min, g, mode), Nil);
      CopiesBytes(min, g, Cons(Nested(max - min, g, mode), Nil));
    } else {
      CopiesBytes(min, g, Nil);
    }
  }

  lemma NestedOne(g: Group, mode: Mode)
    ensures NestedBytes(1, g, mode) == [ZeroOp(mode)] + EncGroup(g)
  {
    hide EncGroup;
  }

  /** The bracket around a copy and what is nested after it. */
  function Around(k: nat, g: Group, mode: Mode): Group
    requires k > 0
  {
    Group(0, false, Cons(Grp(NoPrefix, g), Cons(Nested(k, g, mode), Nil)), NoAlt, Ket)
  }

  lemma NestedMore(k: nat, g: Group, mode: Mode)
    requires k > 0
    ensures NestedBytes(k + 1, g, mode) == [ZeroOp(mode)] + EncGroup(Around(k, g, mode))
    ensures EncNodes(Around(k, g, mode).b) == EncGroup(g) + NestedBytes(k, g, mode)
    ensures Span(Around(k, g, mode)) == 3 + |EncGroup(g)| + |NestedBytes(k, g, mode)|
  {
    hide EncGroup, EncNodes;
    var n := Nested(k, g, mode);
    ConsTail(Grp(NoPrefix, g), Cons(n, Nil));
    ConsTail(n, Nil);
    PlainSpan(Around(k, g, mode).b);
    assert EncNode(Grp(NoPrefix, g)) == EncGroup(g);
    assert EncNode(Nested(k + 1, g, mode)) == EncPrefix(ZeroPrefix(mode)) + EncGroup(Around(k, g, mode));
  }

  // ---------- pending brackets ----------

  /** Where the optional copy after bracket i begins. */
  function NextZero(pend: seq<nat>, i: nat, last: nat): int {
    if i + 1 < |pend| then pend[i + 1] - 1 else last
  }

  predicate PendingAt(code: seq<Byte>, pend: seq<nat>, g: Group, z: Byte, last: nat, i: nat)
    requires i < |pend|
  {
    && 1 <= pend[i] && pend[i] + 3 <= |code| && At(code, pend[i] - 1) == z && At(code, pend[i]) == OP_BRA
    && Has(code, pend[i] + 3, EncGroup(g)) && NextZero(pend, i, last) == pend[i] + 3 + |EncGroup(g)| <= last
    && Get(code, pend[i] + 1) + (if i == 0 then pend[0] else pend[i - 1]) == pend[i]
  }

  /** Brackets still open at pend, the outermost first, each with a zero prefix z
      before it and a copy of g in it, up to last. Until their ends are known their
      links lead back to the one before. */
  ghost predicate Pending(code: seq<Byte>, pend: seq<nat>, g: Group, z: Byte, last: nat) {
    last <= |code| && forall i: nat :: i < |pend| ==> PendingAt(code, pend, g, z, last, i)
  }

  lemma PendingFrame(code: seq<Byte>, code': seq<Byte>, pend: seq<nat>, g: Group, z: Byte, last: nat)
    requires Pending(code, pend, g, z, last) && last <= |code'| && code[..last] == code'[..last]
    ensures Pending(code', pend, g, z, last)
  {
    hide Has;
    forall i: nat | i < |pend| ensures PendingAt(code', pend, g, z, last, i) {
      assert PendingAt(code, pend, g, z, last, i);
      HasFrame(code, code', pend[i] + 3, EncGroup(g), last);
      assert forall j :: 0 <= j < last ==> code[..last][j] == code[j] && code'[..last][j] == code'[j];
    }
  }

  /** One more bracket is opened at last. */
  lemma PendingGrow(code: seq<Byte>, pend: seq<nat>, g: Group, z: Byte, last: nat, end: nat)
    requires Pending(code, pend, g, z, last) && end == last + 4 + |EncGroup(g)| <= |code|
    requires At(code, last) == z && At(code, last + 1) == OP_BRA && Has(code, last + 4, EncGroup(g))
    requires Get(code, last + 2) == if pend == [] then 0 else last + 1 - pend[|pend| - 1]
    ensures Pending(code, pend + [last + 1], g, z, end)
  {
    hide Has, EncGroup, Get;
    var pend' := pend + [last + 1];
    forall i: nat | i < |pend'| ensures PendingAt(code, pend', g, z, end, i) {
      if i < |pend| { assert PendingAt(code, pend, g, z, last, i); }
    }
  }

  /** The innermost pending bracket is closed: its ket has been written at end. */
  lemma PendingClose(code: seq<Byte>, code': seq<Byte>, pend: seq<nat>, g: Group, z: Byte, mode: Mode, last: nat, k: nat, end: nat)
    requires Pending(code, pend, g, z, last) && pend != [] && k > 0 && z == ZeroOp(mode)
    requires Written(code, last, NestedBytes(k, g, mode), end) && end + 3 <= |code| == |code'| <= MAX_PATTERN_SIZE
    requires var bra := pend[|pend| - 1];
      bra < end && code' == code[end := OP_KET][end + 1 := Link(end - bra)[0]][end + 2 := Link(end - bra)[1]]
                               [bra + 1 := Link(end - bra)[0]][bra + 2 := Link(end - bra)[1]]
    ensures var bra := pend[|pend| - 1];
      0 < bra && Pending(code', pend[..|pend| - 1], g, z, bra - 1) &&
      Written(code', bra - 1, NestedBytes(k + 1, g, mode), end + 3) &&
      (|pend| > 1 ==> bra - 1 > pend[|pend| - 2]) 
  {
    hide Has, EncGroup, EncNodes, Nested, Link, Get, PendingAt;
    var bra := pend[|pend| - 1];
    LastPending(code, pend, g, z, last);
    ClosedPieces(code, code', bra, EncGroup(g), NestedBytes(k, g, mode), last, end);
    Shrink(code, pend, g, z, last);
    PendingFrame(code, code', pend[..|pend| - 1], g, z, bra - 1);
    hide Pending, NestedBytes;
    ClosedBytes(code', bra, g, mode, last, k, end);
    HasByte(code', bra - 1, z);
    NestedMore(k, g, mode);
    HasJoin(code', bra - 1, [z], EncGroup(Around(k, g, mode)));
  }

  lemma LastPending(code: seq<Byte>, pend: seq<nat>, g: Group, z: Byte, last: nat)
    requires Pending(code, pend, g, z, last) && pend != []
    ensures PendingAt(code, pend, g, z, last, |pend| - 1)
    ensures var bra := pend[|pend| - 1];
      1 <= bra && At(code, bra - 1) == z && At(code, bra) == OP_BRA && Has(code, bra + 3, EncGroup(g)) &&
      last == bra + 3 + |EncGroup(g)|
  {
    hide Has, EncGroup, Get;
    assert PendingAt(code, pend, g, z, last, |pend| - 1);
  }

  /** The pieces make the bracket around k + 1 copies. */
  lemma ClosedBytes(code: seq<Byte>, bra: nat, g: Group, mode: Mode, last: nat, k: nat, end: nat)
    requires k > 0 && bra < end && last == bra + 3 + |EncGroup(g)| && end == last + |NestedBytes(k, g, mode)|
    requires Has(code, bra + 1, Link(end - bra)) && Has(code, bra + 3, EncGroup(g)) && HeadWritten(code, bra, 0)
    requires Has(code, last, NestedBytes(k, g, mode)) && Has(code, end, [OP_KET]) && Has(code, end + 1, Link(end - bra))
    ensures Has(code, bra, EncGroup(Around(k, g, mode)))
  {
    hide Has, EncGroup, EncNodes, NestedBytes, Link, HeadWritten;
    var a := Around(k, g, mode);
    NestedMore(k, g, mode);
    HasJoin(code, bra + 3, EncGroup(g), NestedBytes(k, g, mode));
    NoAlts();
    HasFits(code, end, [OP_KET]);
    HasNothing(code, end);
    HeadHas(code, bra, a);
    GroupHas(code, bra, a);
  }

  /** Without the innermost bracket. */
  lemma Shrink(code: seq<Byte>, pend: seq<nat>, g: Group, z: Byte, last: nat)
    requires Pending(code, pend, g, z, last) && pend != []
    ensures var m := |pend| - 1; 1 <= pend[m] <= |code| && Pending(code, pend[..m], g, z, pend[m] - 1)
    ensures |pend| > 1 ==> pend[|pend| - 2] < pend[|pend| - 1] - 1
  {
    hide Has, EncGroup, Get;
    var m := |pend| - 1;
    assert PendingAt(code, pend, g, z, last, m);
    if m > 0 { assert PendingAt(code, pend, g, z, last, m - 1); }
    var outer, end: nat := pend[..m], pend[m] - 1;
    forall i: nat | i < |outer| ensures PendingAt(code, outer, g, z, end, i) {
      assert PendingAt(code, pend, g, z, last, i);
      PendingBefore(code, pend, g, z, last, i, m);
      if i + 1 < m { PendingBefore(code, pend, g, z, last, i + 1, m); }
    }
  }

  lemma {:induction false} PendingBefore(code: seq<Byte>, pend: seq<nat>, g: Group, z: Byte, last: nat, i: nat, j: nat)
    requires Pending(code, pend, g, z, last) && i < j < |pend|
    ensures pend[i] + 4 + |EncGroup(g)| <= pend[j]
    decreases j - i
  {
    hide Has, EncGroup, Get;
    assert PendingAt(code, pend, g, z, last, i);
    if i + 1 < j { PendingBefore(code, pend, g, z, last, i + 1, j); }
  }

  /** What lies where after the ket has been written and the link filled in. */
  lemma ClosedPieces(code: seq<Byte>, code': seq<Byte>, bra: nat, e: seq<Byte>, body: seq<Byte>, last: nat, end: nat)
    requires Has(code, bra + 3, e) && last == bra + 3 + |e| && Has(code, last, body) && end == last + |body|
    requires end + 3 <= |code| <= MAX_PATTERN_SIZE && 0 < bra && At(code, bra) == OP_BRA
    requires code' == code[end := OP_KET][end + 1 := Link(end - bra)[0]][end + 2 := Link(end - bra)[1]]
                          [bra + 1 := Link(end - bra)[0]][bra + 2 := Link(end - bra)[1]]
    ensures Has(code', bra + 1, Link(end - bra)) && Has(code', bra + 3, e) && Has(code', last, body)
    ensures Has(code', end, [OP_KET]) && Has(code', end + 1, Link(end - bra))
    ensures code'[..bra] == code[..bra] && At(code', bra) == OP_BRA && HeadWritten(code', bra, 0)
  {
    assert code'[bra + 3..bra + 3 + |e|] == code[bra + 3..bra + 3 + |e|];
    assert code'[last..last + |body|] == code[last..last + |body|];
    assert code'[bra + 1..bra + 3] == Link(end - bra);
    assert code'[end + 1..end + 3] == Link(end - bra);
  }

  function NestLen(k: nat, len: nat): nat {
    if k == 0 then 0 else if k == 1 then 1 + len else len + 7 + NestLen(k - 1, len)
  }

  lemma {:induction false} NestedBytesLen(k: nat, g: Group, mode: Mode)
    ensures |NestedBytes(k, g, mode)| == NestLen(k, |EncGroup(g)|)
    decreases k
  {
    hide EncGroup, NestedBytes;
    if k == 0 {
      NoCopies(g, mode);
    } else if k == 1 {
      NestedOne(g, mode);
    } else {
      NestedBytesLen(k - 1, g, mode);
      NestedMore(k - 1, g, mode);
    }
  }

  lemma NoCopies(g: Group, mode: Mode)
    ensures NestedBytes(0, g, mode) == []
  {
  }

  /** BraLink points to the link of the innermost pending bracket. */
  predicate LinksTo(pend: seq<nat>, bralink: int) {
    bralink == if pend == [] then -1 else pend[|pend| - 1] + 1
  }

  /** Where the nested copies begin. */
  function Base(pend: seq<nat>, last: nat): int {
    var first: int := if pend == [] then last + 1 else pend[0];
    first - 1
  }

  // ---------- the repeating copy ----------

  lemma KetChanged(code: seq<Byte>, code': seq<Byte>, pc: nat, g: Group, k: Ket)
    requires Has(code, pc, EncGroup(g)) && |code| == |code'|
    requires forall i :: 0 <= i < |code| && i != pc + Span(g) ==> code'[i] == code[i]
    requires pc + Span(g) < |code| && code'[pc + Span(g)] == KetOp(k)
    ensures Has(code', pc, EncGroup(g.(ket := k)))
  {
    hide Has, EncGroup, EncNodes, EncAlts, Link;
    KetSplit(g);
    KetSplit(g.(ket := k));
    ByteChanged(code, code', pc, BeforeKet(g), KetOp(g.ket), KetOp(k), Link(Span(g)));
  }

  function BeforeKet(g: Group): seq<Byte> { EncHead(g) + EncNodes(g.b) + EncAlts(g.more) }

  lemma KetSplit(g: Group)
    ensures EncGroup(g) == BeforeKet(g) + [KetOp(g.ket)] + Link(Span(g)) && |BeforeKet(g)| == Span(g)
    ensures forall k :: BeforeKet(g.(ket := k)) == BeforeKet(g) && Span(g.(ket := k)) == Span(g)
  {
  }

  lemma ByteChanged(code: seq<Byte>, code': seq<Byte>, pc: nat, p: seq<Byte>, x: Byte, y: Byte, l: seq<Byte>)
    requires Has(code, pc, p + [x] + l) && |code| == |code'| && pc + |p| < |code'| && code'[pc + |p|] == y
    requires forall i :: 0 <= i < |code| && i != pc + |p| ==> code'[i] == code[i]
    ensures Has(code', pc, p + [y] + l)
  {
    var e := p + [x] + l;
    assert p + [y] + l == e[|p| := y];
    assert code'[pc..pc + |e|] == code[pc..pc + |e|][|p| := y];
  }

  lemma SMarked(code: seq<Byte>, code': seq<Byte>, pc: nat, g: Group)
    requires Has(code, pc, EncGroup(g)) && !g.s && pc < |code| && code' == code[pc := BraOp(g.(s := true))]
    ensures Has(code', pc, EncGroup(g.(s := true)))
  {
    var u := g.(s := true);
    HeadSplit(g);
    HeadSplit(u);
    assert BehindHead(u) == BehindHead(g);
    hide EncGroup, BehindHead, Has;
    assert [BraOp(g)] + BehindHead(g) == [] + [BraOp(g)] + BehindHead(g);
    assert [BraOp(u)] + BehindHead(g) == [] + [BraOp(u)] + BehindHead(g);
    ByteChanged(code, code', pc, [], BraOp(g), BraOp(u), BehindHead(g));
  }

  function BehindHead(g: Group): seq<Byte> {
    Link(HeadLen(g) + |EncNodes(g.b)|) + (if g.cap == 0 then [] else Link(g.cap)) +
    EncNodes(g.b) + EncAlts(g.more) + [KetOp(g.ket)] + Link(Span(g))
  }

  lemma HeadSplit(g: Group)
    ensures EncGroup(g) == [BraOp(g)] + BehindHead(g)
  {
    hide EncNodes, EncAlts, Link;
  }

  lemma NoPending(code: seq<Byte>, g: Group, z: Byte, last: nat)
    requires last <= |code|
    ensures Pending(code, [], g, z, last)
  {
  }

  lemma TimesLen(k: nat, e: seq<Byte>)
    ensures |Times(k + 1, e)| == |Times(k, e)| + |e|
  {
    TimesSnoc(k, e);
  }

  /** The links of pending brackets, as the closing loop reads them. */
  lemma PendingLinks(code: seq<Byte>, pend: seq<nat>, g: Group, z: Byte, last: nat)
    requires Pending(code, pend, g, z, last)
    ensures pend != [] ==>
      var m := |pend| - 1;
      pend[m] + 3 <= last <= |code| &&
      Get(code, pend[m] + 1) + (if m == 0 then pend[0] else pend[m - 1]) == pend[m] && (m > 0 ==> pend[m - 1] < pend[m])
  {
    hide Has, EncGroup, Get;
    if pend != [] {
      var m := |pend| - 1;
      assert PendingAt(code, pend, g, z, last, m);
      if m > 0 { PendingBefore(code, pend, g, z, last, m - 1, m); }
    }
  }

  lemma BaseFits(code: seq<Byte>, pend: seq<nat>, g: Group, z: Byte, last: nat)
    requires Pending(code, pend, g, z, last)
    ensures 0 <= Base(pend, last) <= last <= |code|
    ensures pend != [] ==> Base(pend, last) + 1 <= pend[|pend| - 1]
  {
    hide Has, EncGroup, Get;
    if pend != [] {
      assert PendingAt(code, pend, g, z, last, 0);
      if |pend| > 1 { PendingBefore(code, pend, g, z, last, 0, |pend| - 1); }
    }
  }
}
