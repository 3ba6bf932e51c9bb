/** Brackets that are still open: links that lead back from each ALT, and how they
    are turned round when the bracket is closed. */
module Chains {
  import opened Bytes
  import opened Code
  import opened Layout
  import opened Pattern
  import opened Lowering
  import opened PreCompile

  // ---------- alternatives ----------

  /** The branches ps, and then more. */
  function AltsOf(ps: seq<Nodes>, more: Alts): Alts {
    if ps == [] then more else Alt(ps[0], AltsOf(ps[1..], more))
  }

  lemma {:induction false} AltsSnoc(ps: seq<Nodes>, p: Nodes, more: Alts)
    ensures AltsOf(ps + [p], more) == AltsOf(ps, Alt(p, more))
    decreases |ps|
  {
    if ps == [] {
      assert [p][1..] == [];
    } else {
      assert (ps + [p])[1..] == ps[1..] + [p];
      AltsSnoc(ps[1..], p, more);
    }
  }

  /** Length of the item that opens branch j of a bracket. */
  function OpenerLen(j: nat, skip: nat): nat { if j == 0 then 3 + skip else 3 }

  /** Where the branch after branch j opens, or the bracket ends. */
  function NextOpener(opens: seq<nat>, j: nat, end: nat): nat {
    if j + 1 < |opens| then opens[j + 1] else end
  }

  /** What the link of branch j holds: among the first back ones it leads back to the
      opener before (0 for the first), otherwise forward to the next. */
  function LinkOf(opens: seq<nat>, end: nat, back: nat, j: nat): int
    requires j < |opens|
  {
    var next: int, here: int := NextOpener(opens, j, end), opens[j];
    if j >= back then next - here else if j == 0 then 0 else here - opens[j - 1]
  }

  predicate BranchLies(code: seq<Byte>, opens: seq<nat>, ps: seq<Nodes>, skip: nat, end: nat, back: nat, j: nat)
    requires j < |opens| == |ps|
  {
    && (j > 0 ==> At(code, opens[j]) == OP_ALT)
    && Has(code, opens[j] + OpenerLen(j, skip), EncNodes(ps[j]))
    && NextOpener(opens, j, end) == opens[j] + OpenerLen(j, skip) + |EncNodes(ps[j])| <= end
    && Get(code, opens[j] + 1) == LinkOf(opens, end, back, j)
  }

  /** The branches ps of a bracket whose opening items are at opens, up to end. */
  ghost predicate Chain(code: seq<Byte>, opens: seq<nat>, ps: seq<Nodes>, skip: nat, end: nat, back: nat) {
    |opens| == |ps| && end <= |code| &&
    forall j: nat :: j < |opens| ==> BranchLies(code, opens, ps, skip, end, back, j)
  }

  lemma LinkHere(code: seq<Byte>, pc: nat, n: nat)
    requires pc + 2 <= |code| && Get(code, pc) == n
    ensures Has(code, pc, Link(n)) && n < 0x1_0000
  {
    assert code[pc..pc + 2] == [code[pc], code[pc + 1]];
  }

  /** Once all links lead forward, the branches from j on are those of an alternation. */
  lemma {:induction false} ChainAlts(code: seq<Byte>, opens: seq<nat>, ps: seq<Nodes>, skip: nat, end: nat, j: nat)
    requires Chain(code, opens, ps, skip, end, 0) && 0 < j <= |ps|
    ensures Has(code, NextOpener(opens, j - 1, end), EncAlts(AltsOf(ps[j..], NoAlt)))
    ensures NextOpener(opens, j - 1, end) + |EncAlts(AltsOf(ps[j..], NoAlt))| == end
    decreases |ps| - j
  {
    hide Has, EncNodes, Link, Get, EncAlts;
    if j == |ps| {
      assert BranchLies(code, opens, ps, skip, end, 0, j - 1);
      assert ps[j..] == [];
      NoAlts();
      HasNothing(code, end);
    } else {
      assert BranchLies(code, opens, ps, skip, end, 0, j) && BranchLies(code, opens, ps, skip, end, 0, j - 1);
      ChainAlts(code, opens, ps, skip, end, j + 1);
      assert ps[j..][0] == ps[j] && ps[j..][1..] == ps[j + 1..];
      var b, more, pc := ps[j], AltsOf(ps[j + 1..], NoAlt), opens[j];
      assert AltsOf(ps[j..], NoAlt) == Alt(b, more);
      LinkHere(code, pc + 1, 3 + |EncNodes(b)|);
      AltHas(code, pc, b, more);
      AltLen(b, more);
    }
  }

  lemma NoAlts()
    ensures EncAlts(NoAlt) == []
  {
  }

  lemma HasNothing(code: seq<Byte>, pc: nat)
    requires pc <= |code|
    ensures Has(code, pc, [])
  {
  }

  lemma HasByte(code: seq<Byte>, pc: nat, b: Byte)
    requires pc < |code| && code[pc] == b
    ensures Has(code, pc, [b])
  {
  }

  lemma AltHas(code: seq<Byte>, pc: nat, b: Nodes, more: Alts)
    requires At(code, pc) == OP_ALT && Has(code, pc + 1, Link(3 + |EncNodes(b)|)) && pc < |code|
    requires Has(code, pc + 3, EncNodes(b)) && Has(code, pc + 3 + |EncNodes(b)|, EncAlts(more))
    ensures Has(code, pc, EncAlts(Alt(b, more)))
  {
    hide Has, EncNodes, Link;
    var l := Link(3 + |EncNodes(b)|);
    HasByte(code, pc, OP_ALT);
    HasJoin(code, pc, [OP_ALT], l);
    HasJoin(code, pc, [OP_ALT] + l, EncNodes(b));
    HasJoin(code, pc, [OP_ALT] + l + EncNodes(b), EncAlts(more));
  }

  /** The head that the caller wrote, with the capture number behind the link. */
  predicate HeadWritten(code: seq<Byte>, pc: nat, cap: nat) {
    pc + (if cap == 0 then 3 else 5) <= |code| && code[pc] == (if cap == 0 then OP_BRA else OP_CBRA) &&
    (cap != 0 ==> Has(code, pc + 3, Link(cap)))
  }

  /** A closed chain with its ket is a bracket. */
  lemma ChainGroup(code: seq<Byte>, opens: seq<nat>, ps: seq<Nodes>, cap: nat, end: nat)
    requires opens != [] && Chain(code, opens, ps, if cap == 0 then 0 else 2, end, 0) && HeadWritten(code, opens[0], cap)
    requires opens[0] <= end && Has(code, end, [OP_KET]) && Has(code, end + 1, Link(end - opens[0]))
    ensures Has(code, opens[0], EncGroup(Group(cap, false, ps[0], AltsOf(ps[1..], NoAlt), Ket)))
  {
    hide Has, EncNodes, Link, EncAlts, Get, EncGroup, EncHead;
    var g := Group(cap, false, ps[0], AltsOf(ps[1..], NoAlt), Ket);
    var pc, skip := opens[0], if cap == 0 then 0 else 2;
    assert BranchLies(code, opens, ps, skip, end, 0, 0);
    ChainAlts(code, opens, ps, skip, end, 1);
    LinkHere(code, pc + 1, HeadLen(g) + |EncNodes(g.b)|);
    HeadHas(code, pc, g);
    GroupHas(code, pc, g);
  }

  lemma HeadHas(code: seq<Byte>, pc: nat, g: Group)
    requires HeadWritten(code, pc, g.cap) && !g.s && Has(code, pc + 1, Link(HeadLen(g) + |EncNodes(g.b)|))
    ensures Has(code, pc, EncHead(g))
  {
    hide Has, EncNodes, Link;
    HasByte(code, pc, BraOp(g));
    var l, n := Link(HeadLen(g) + |EncNodes(g.b)|), if g.cap == 0 then [] else Link(g.cap);
    HasJoin(code, pc, [BraOp(g)], l);
    if g.cap == 0 { HasNothing(code, pc + 3); }
    HasJoin(code, pc, [BraOp(g)] + l, n);
  }

  lemma GroupHas(code: seq<Byte>, pc: nat, g: Group)
    requires Has(code, pc, EncHead(g)) && Has(code, pc + HeadLen(g), EncNodes(g.b))
    requires Has(code, pc + HeadLen(g) + |EncNodes(g.b)|, EncAlts(g.more))
    requires Has(code, pc + Span(g), [KetOp(g.ket)]) && Has(code, pc + Span(g) + 1, Link(Span(g)))
    ensures Has(code, pc, EncGroup(g))
  {
    hide Has, EncNodes, EncHead, EncAlts, Link;
    var h, b, a := EncHead(g), EncNodes(g.b), EncAlts(g.more);
    HasJoin(code, pc, h, b);
    HasJoin(code, pc, h + b, a);
    HasJoin(code, pc, h + b + a, [KetOp(g.ket)]);
    HasJoin(code, pc, h + b + a + [KetOp(g.ket)], Link(Span(g)));
  }

  lemma ChainLen(code: seq<Byte>, opens: seq<nat>, ps: seq<Nodes>, cap: nat, end: nat)
    requires opens != [] && Chain(code, opens, ps, if cap == 0 then 0 else 2, end, 0)
    ensures ps != [] && end == opens[0] + Span(Group(cap, false, ps[0], AltsOf(ps[1..], NoAlt), Ket))
  {
    hide Has, EncNodes, EncAlts, Get;
    assert BranchLies(code, opens, ps, if cap == 0 then 0 else 2, end, 0, 0);
    ChainAlts(code, opens, ps, if cap == 0 then 0 else 2, end, 1);
  }

  /** Bytes written so far from start: exactly e, up to end. */
  predicate Written(code: seq<Byte>, start: nat, e: seq<Byte>, end: nat) {
    Has(code, start, e) && end == start + |e|
  }

  /** Has depends only on the bytes it covers. */
  lemma HasFrame(code: seq<Byte>, code': seq<Byte>, pc: nat, e: seq<Byte>, end: nat)
    requires Has(code, pc, e) && pc + |e| <= end <= |code| && end <= |code'| && code[..end] == code'[..end]
    ensures Has(code', pc, e)
  {
    assert code[pc..pc + |e|] == code[..end][pc..pc + |e|];
    assert code'[pc..pc + |e|] == code'[..end][pc..pc + |e|];
  }

  // ---------- how a chain grows and is turned round ----------

  lemma ChainFrame(code: seq<Byte>, code': seq<Byte>, opens: seq<nat>, ps: seq<Nodes>, skip: nat, end: nat, back: nat)
    requires Chain(code, opens, ps, skip, end, back) && end <= |code'| && code[..end] == code'[..end]
    ensures Chain(code', opens, ps, skip, end, back)
  {
    hide Has;
    forall j: nat | j < |opens| ensures BranchLies(code', opens, ps, skip, end, back, j) {
      assert BranchLies(code, opens, ps, skip, end, back, j);
      HasFrame(code, code', opens[j] + OpenerLen(j, skip), EncNodes(ps[j]), end);
      assert forall i :: 0 <= i < end ==> code[..end][i] == code[i] && code'[..end][i] == code'[i];
    }
  }

  lemma ChainGrow(code: seq<Byte>, opens: seq<nat>, ps: seq<Nodes>, skip: nat, o: nat, p: Nodes, end: nat)
    requires Chain(code, opens, ps, skip, o, |opens|) && (opens != [] ==> At(code, o) == OP_ALT)
    requires Get(code, o + 1) == if opens == [] then 0 else o - opens[|opens| - 1]
    requires end == o + OpenerLen(|opens|, skip) + |EncNodes(p)| <= |code|
    requires Has(code, o + OpenerLen(|opens|, skip), EncNodes(p))
    ensures Chain(code, opens + [o], ps + [p], skip, end, |opens| + 1)
  {
    hide Has, EncNodes, Get;
    var opens', ps' := opens + [o], ps + [p];
    forall j: nat | j < |opens'| ensures BranchLies(code, opens', ps', skip, end, |opens'|, j) {
      if j < |opens| { assert BranchLies(code, opens, ps, skip, o, |opens|, j); }
    }
  }

  lemma {:induction false} OpensOrder(code: seq<Byte>, opens: seq<nat>, ps: seq<Nodes>, skip: nat, end: nat, back: nat, i: nat, j: nat)
    requires Chain(code, opens, ps, skip, end, back) && i < j < |opens|
    ensures opens[i] + OpenerLen(i, skip) + |EncNodes(ps[i])| <= opens[j]
    decreases j - i
  {
    assert BranchLies(code, opens, ps, skip, end, back, i);
    if i + 1 < j { OpensOrder(code, opens, ps, skip, end, back, i + 1, j); }
  }

  lemma GetPut(code: seq<Byte>, code': seq<Byte>, at: nat, n: nat)
    requires at + 2 <= |code| && n < 0x1_0000 && code' == code[at := Link(n)[0]][at + 1 := Link(n)[1]]
    ensures Get(code', at) == n
  {
  }

  lemma HasElsewhere(code: seq<Byte>, code': seq<Byte>, pc: nat, e: seq<Byte>, at: nat)
    requires Has(code, pc, e) && at + 2 <= |code| && |code'| == |code|
    requires forall i :: 0 <= i < |code| && i != at && i != at + 1 ==> code'[i] == code[i]
    requires pc + |e| <= at || at + 2 <= pc
    ensures Has(code', pc, e)
  {
    assert code'[pc..pc + |e|] == code[pc..pc + |e|];
  }

  /** Turning the link of the last opener that still leads back. */
  lemma ChainFlip(code: seq<Byte>, code': seq<Byte>, opens: seq<nat>, ps: seq<Nodes>, skip: nat, end: nat, j: nat)
    requires Chain(code, opens, ps, skip, end, j + 1) && j < |opens| && end < 0x1_0000
    requires code' == var n := NextOpener(opens, j, end) - opens[j];
      if 0 <= n && opens[j] + 3 <= |code| then code[opens[j] + 1 := Link(n)[0]][opens[j] + 2 := Link(n)[1]] else code
    ensures Chain(code', opens, ps, skip, end, j)
  {
    hide Has, EncNodes, Link, Get;
    assert BranchLies(code, opens, ps, skip, end, j + 1, j);
    var at := opens[j] + 1;
    GetPut(code, code', at, NextOpener(opens, j, end) - opens[j]);
    forall i: nat | i < |opens| ensures BranchLies(code', opens, ps, skip, end, j, i) {
      assert BranchLies(code, opens, ps, skip, end, j + 1, i);
      if i < j { OpensOrder(code, opens, ps, skip, end, j + 1, i, j); }
      if j < i { OpensOrder(code, opens, ps, skip, end, j + 1, j, i); }
      HasElsewhere(code, code', opens[i] + OpenerLen(i, skip), EncNodes(ps[i]), at);
      if i != j { GetElsewhere(code, code', opens[i] + 1, at); }
    }
  }

  lemma GetElsewhere(code: seq<Byte>, code': seq<Byte>, pc: nat, at: nat)
    requires |code'| == |code| && at + 2 <= |code| && (pc + 2 <= at || at + 2 <= pc)
    requires forall i :: 0 <= i < |code| && i != at && i != at + 1 ==> code'[i] == code[i]
    ensures Get(code', pc) == Get(code, pc)
  {
  }

  // ---------- an open bracket ----------

  lemma AllBranches(ps: seq<Nodes>, all: Alts, n: nat, nocase: bool)
    requires ps != [] && all == AltsOf(ps, LowerMore(NoMore, n, nocase))
    ensures all == Alt(ps[0], AltsOf(ps[1..], NoAlt)) && CountMore(NoMore) == 0
  {
  }

  lemma MoreStep(rest: Branches, n: nat, nocase: bool)
    requires ValidMore(rest, nocase) && rest.Or?
    ensures ValidBranch(rest.b, nocase) && ValidMore(rest.more, nocase)
    ensures PreMore(rest, nocase) == 3 + PreBranch(rest.b, nocase) + PreMore(rest.more, nocase)
    ensures CountMore(rest) == Count(rest.b) + CountMore(rest.more)
    ensures LowerMore(rest, n, nocase) == Alt(LowerBranch(rest.b, n, nocase), LowerMore(rest.more, n + Count(rest.b), nocase))
  {
  }

  /** Branches ps are complete, and the next one has been opened at last. */
  ghost predicate Opened(code: seq<Byte>, at: nat, skip: nat, opens: seq<nat>, ps: seq<Nodes>, last: nat) {
    Chain(code, opens, ps, skip, last, |opens|) &&
    (if opens == [] then last == at
     else opens[0] == at < last && At(code, last) == OP_ALT && opens[|opens| - 1] < last) &&
    Get(code, last + 1) == if opens == [] then 0 else last - opens[|opens| - 1]
  }

  /** The branches ps are complete up to end, with links that lead back. */
  ghost predicate Filled(code: seq<Byte>, at: nat, skip: nat, opens: seq<nat>, ps: seq<Nodes>, end: nat) {
    Chain(code, opens, ps, skip, end, |opens|) && opens != [] && opens[0] == at && opens[|opens| - 1] < end
  }

  lemma OpenFirst(code: seq<Byte>, at: nat, skip: nat, all: Alts)
    requires at <= |code| && Get(code, at + 1) == 0
    ensures Opened(code, at, skip, [], [], at) && all == AltsOf([], all)
  {
  }

  lemma FillOpen(code: seq<Byte>, code': seq<Byte>, at: nat, skip: nat, opens: seq<nat>, ps: seq<Nodes>, last: nat, p: Nodes, end: nat)
    requires Opened(code, at, skip, opens, ps, last)
    requires var cur := last + OpenerLen(|opens|, skip);
      cur <= |code| == |code'| && code[..cur] == code'[..cur] && Written(code', cur, EncNodes(p), end)
    ensures Filled(code', at, skip, opens + [last], ps + [p], end)
  {
    hide Has, EncNodes;
    var cur := last + OpenerLen(|opens|, skip);
    assert forall i :: 0 <= i < cur ==> code[..cur][i] == code[i] && code'[..cur][i] == code'[i];
    assert code[..last] == code'[..last];
    ChainFrame(code, code', opens, ps, skip, last, |opens|);
    HasFits(code', cur, EncNodes(p));
    ChainGrow(code', opens, ps, skip, last, p, end);
  }

  lemma HasFits(code: seq<Byte>, pc: nat, e: seq<Byte>)
    requires Has(code, pc, e)
    ensures pc + |e| <= |code|
  {
  }

  lemma OpenNext(code: seq<Byte>, code': seq<Byte>, at: nat, skip: nat, opens: seq<nat>, ps: seq<Nodes>, end: nat)
    requires Filled(code, at, skip, opens, ps, end) && end <= |code| == |code'| && code[..end] == code'[..end]
    requires At(code', end) == OP_ALT && Get(code', end + 1) == end - opens[|opens| - 1]
    requires at < end
    ensures Opened(code', at, skip, opens, ps, end)
  {
    ChainFrame(code, code', opens, ps, skip, end, |opens|);
  }

  /** The head is not touched by what is written behind it. */
  lemma HeadKept(code: seq<Byte>, code': seq<Byte>, at: nat, cap: nat)
    requires HeadWritten(code, at, cap) && |code'| == |code| && code'[at] == code[at]
    requires cap != 0 ==> code'[at + 3] == code[at + 3] && code'[at + 4] == code[at + 4]
    ensures HeadWritten(code', at, cap)
  {
    if cap != 0 { assert code'[at + 3..at + 5] == code[at + 3..at + 5]; }
  }

  // ---------- what has been written ----------

  lemma WrittenNothing(code: seq<Byte>, at: nat)
    requires at <= |code|
    ensures Written(code, at, [], at)
  {
  }

  lemma WrittenEnd(code: seq<Byte>, at: nat, e: seq<Byte>, end: nat)
    requires Written(code, at, e, end)
    ensures at <= end <= |code|
  {
  }

  lemma WrittenMore(code: seq<Byte>, code': seq<Byte>, at: nat, done: seq<Byte>, mid: nat, e: seq<Byte>, end: nat)
    requires Written(code, at, done, mid) && |code'| == |code| && code'[..mid] == code[..mid] && Written(code', mid, e, end)
    ensures Written(code', at, done + e, end)
  {
    HasFrame(code, code', at, done, mid);
    HasJoin(code', at, done, e);
  }

  /** The bytes of the first item of b. */
  function ItemBytes(b: Branch, n: nat, nocase: bool): seq<Byte>
    requires ValidBranch(b, nocase) && b.Then?
  {
    match b.i
    case Assertion(op) => [op]
    case Atom(x, q) => AtomBytes(x, Possess(x, q, b.rest))
    case Paren(_, _, _, q) => GroupBytes(LowerGroup(b.i, n, nocase), q)
  }

  /** The length that pass 1 counts for it. */
  function PreItem(b: Branch, nocase: bool): nat
    requires ValidBranch(b, nocase) && b.Then?
  {
    match b.i
    case Assertion(_) => 1
    case Atom(x, q) => PreAtom(x, q, b.rest)
    case Paren(_, _, _, q) => PreRepeat(PreGroup(b.i, nocase), q)
  }

  lemma BranchStep(b: Branch, n: nat, nocase: bool)
    requires ValidBranch(b, nocase) && b.Then?
    ensures EncNodes(LowerBranch(b, n, nocase)) == ItemBytes(b, n, nocase) + EncNodes(LowerBranch(b.rest, n + CountItem(b.i), nocase))
    ensures PreBranch(b, nocase) == PreItem(b, nocase) + PreBranch(b.rest, nocase) && |ItemBytes(b, n, nocase)| <= PreItem(b, nocase)
  {
    hide AtomNodes, GroupNodes, LowerGroup, EncNodes, PreGroup, PreAtom, PreRepeat, AtomBytes, GroupBytes;
    var i, tail := b.i, LowerBranch(b.rest, n + CountItem(b.i), nocase);
    match i
    case Assertion(op) =>
      ConsTail(Zero(op), tail);
    case Atom(x, q) =>
      AtomTail(x, Possess(x, q, b.rest), tail);
      AtomFits(x, q, b.rest);
    case Paren(_, _, _, q) =>
      GroupRoom(i, n, nocase);
      GroupTail(LowerGroup(i, n, nocase), q, tail);
  }

  lemma BranchStop(b: Branch, n: nat, nocase: bool)
    requires b.Empty?
    ensures EncNodes(LowerBranch(b, n, nocase)) == [] && Count(b) == 0
  {
  }

  /** Classes are never made possessive. */
  lemma NoClassPossess(x: Single, next: Branch)
    requires x.Class?
    ensures !AutoPossess(x, next)
  {
  }
}
