/** What match() does with a pattern of a single item. */
module OneItem {
  import opened Bytes
  import opened Code
  import opened Semantics
  import opened Shape
  import opened Machine
  import opened Pattern
  import opened Lowering
  import opened Preservation
  import opened Emptiness
  import opened Termination
  import opened Simulation
  import opened Theorems

  /** The code of a pattern that is the one item with the bytes e. */
  function Program(e: seq<Byte>): seq<Byte>
    requires |e| < 200
  {
    [OP_BRA, 0, 3 + |e|] + e + [OP_KET, 0, 3 + |e|, OP_END]
  }

  predicate Lone(i: Item) { i.Assertion? || (i.Atom? && i.q == NoQ) }

  function Only(i: Item): Branch { Then(i, Empty) }

  /** match() is called at mstart, with limits that allow 23 calls. */
  ghost predicate Asked(md: Md, st: State, e: seq<Byte>) {
    |e| < 200 && md.code == Program(e) && md.offsetEnd % 3 == 0 && |st.vec| == md.offsetEnd &&
    st.count + 23 <= md.limit && 23 <= md.rlimit && md.mstart <= |md.c.s|
  }

  function ItemNodes(i: Item): Nodes
    requires Lone(i)
  {
    Cons(if i.Assertion? then Zero(i.op) else One(i.x), Nil)
  }

  function ItemCode(i: Item): seq<Byte>
    requires Lone(i)
  {
    if i.Assertion? then [i.op] else EncOne(i.x)
  }

  lemma ItemLowered(i: Item, nocase: bool)
    requires Lone(i) && ValidItem(i, nocase) && |ItemCode(i)| < 200
    ensures ValidBranch(Only(i), nocase) && Compile(Only(i), NoMore, nocase) == Group(0, false, ItemNodes(i), NoAlt, Ket)
    ensures EncProgram(Compile(Only(i), NoMore, nocase)) == Program(ItemCode(i))
    ensures Usable(Only(i), NoMore, nocase) && Halting(Only(i), NoMore, nocase)
  {
    ItemGroup(i, nocase);
    ItemBytes(i);
    ItemTame(i);
    hide EncGroup, EncProgram, ItemNodes, ItemCode, Compile, ValidBranch, GuardedGroup, CalmGroup, Safe, NoAtomic;
    assert ValidMore(NoMore, nocase) && SafeMore(NoMore) && NoAtomicMore(NoMore) && CountMore(NoMore) == 0;
  }

  lemma ItemGroup(i: Item, nocase: bool)
    requires Lone(i) && ValidItem(i, nocase)
    ensures ValidBranch(Only(i), nocase) && Compile(Only(i), NoMore, nocase) == Group(0, false, ItemNodes(i), NoAlt, Ket)
  {
    hide ValidSingle;
    assert LowerBranch(Empty, 0, nocase) == Nil && LowerMore(NoMore, 0, nocase) == NoAlt;
  }

  lemma ItemBytes(i: Item)
    requires Lone(i) && |ItemCode(i)| < 200
    ensures EncProgram(Group(0, false, ItemNodes(i), NoAlt, Ket)) == Program(ItemCode(i))
  {
    var g := Group(0, false, ItemNodes(i), NoAlt, Ket);
    assert EncNodes(Nil) == [] && EncAlts(NoAlt) == [];
    assert EncNodes(g.b) == ItemCode(i) + [] == ItemCode(i);
    hide EncNodes, EncAlts, ItemCode;
    assert EncHead(g) == [OP_BRA, 0, 3 + |ItemCode(i)|] && Span(g) == 3 + |ItemCode(i)|;
  }

  lemma ItemTame(i: Item)
    requires Lone(i)
    ensures var g := Group(0, false, ItemNodes(i), NoAlt, Ket); GuardedGroup(g) && CalmGroup(g, true)
    ensures Safe(Only(i)) && NoAtomic(Only(i)) && Count(Only(i)) == 0
  {
    assert Count(Empty) == 0 && Safe(Empty) && NoAtomic(Empty);
    assert Guarded(Nil) && Calm(Nil, true);
  }

  lemma FewCalls(n: nat, i: Item, pos: nat)
    requires Lone(i)
    ensures CallBound(n, Group(0, false, ItemNodes(i), NoAlt, Ket), pos) == 23
  {
    var g := Group(0, false, ItemNodes(i), NoAlt, Ket);
    assert W(n, Nil) == 0 && W(n, g.b) == 1 && WBranches(n, g) == 1;
    assert Entry(n, g, pos, Done) == 3;
    assert Cost(0) == 1 && Cost(1) == 4 && Cost(2) == 10;
  }

  /** The item holds at the place where match() is called. */
  predicate Holds(md: Md, i: Item)
    requires Lone(i)
  {
    if i.Assertion? then ZeroOk(md.c, i.op, md.mstart) && !md.c.notempty else AcceptsAt(md.c, i.x, md.mstart)
  }

  lemma ItemWays(md: Md, i: Item, r: Res)
    requires Lone(i) && r.pos == md.mstart <= |md.c.s|
    ensures var outs := Filter(md.c, md.mstart, Matches(md.c, Only(i), NoMore, r));
      if Holds(md, i) then outs == [r.(pos := if i.Assertion? then r.pos else r.pos + 1)] else outs == []
  {
    var c, p := md.c, r.pos;
    if i.Atom? && p < |c.s| { assert Runs(c, i.x, 0, 0, false, p + 1) == [p + 1]; }
    var rs := SItem(c, i, 0, r);
    assert rs == if i.Assertion? then (if ZeroOk(c, i.op, p) then [r] else []) else if AcceptsAt(c, i.x, p) then [r.(pos := p + 1)] else [];
    hide SItem, ZeroOk, Accepts;
    assert SEach(c, Empty, 0, p, []) == [];
    if rs != [] { assert rs[1..] == [] && SBranch(c, Empty, 0, rs[0]) == [rs[0]]; }
    assert SBranch(c, Only(i), 0, r) == rs;
    assert SMore(c, NoMore, 0, r) == [];
    assert Filter(c, md.mstart, []) == [];
    if rs != [] { assert Filter(c, md.mstart, rs[1..]) == []; }
  }

  /** It matches exactly if the item holds there. */
  lemma OneCall(md: Md, st: State, i: Item)
    requires Lone(i) && ValidItem(i, md.c.nocase) && |ItemCode(i)| < 200 && Asked(md, st, ItemCode(i))
    ensures var o := Call(md, st, Begin(md), false);
      if Holds(md, i) then o.rc == MATCH && o.st.endPtr == md.mstart + (if i.Assertion? then 0 else 1) else o.rc == NOMATCH
  {
    ItemLowered(i, md.c.nocase);
    FewCalls(|md.c.s|, i, md.mstart);
    ItemWays(md, i, Start(md, st));
    hide Call, Matches, Filter, Holds, Halting, Usable, CallBound, EncProgram, Compile;
    assert Running(md, st, Only(i), NoMore);
    MatchDecides(md, st, Only(i), NoMore);
  }
}
