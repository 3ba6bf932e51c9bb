/** Compiling a pattern keeps its ordered-choice meaning: quantifiers become exact
    and optional parts, copies and nested optional brackets, and some repeats
    become possessive. */
module Preservation {
  import opened Bytes
  import opened Code
  import opened Semantics
  import opened Machine
  import opened Repeats
  import opened Pattern
  import opened Lowering

  // ---------- lists of positions ----------

  lemma EachOne(c: Ctx, ns: Nodes, lo: nat, r: Res)
    requires lo <= r.pos <= |c.s|
    ensures Each(c, ns, lo, [r]) == AllNodes(c, ns, r)
  {
    assert [r][1..] == [];
  }

  lemma {:induction false} EachNil(c: Ctx, lo: nat, rs: seq<Res>)
    requires lo <= |c.s| && Good(c, lo, rs)
    ensures Each(c, Nil, lo, rs) == rs
    decreases |rs|
  {
    if rs != [] {
      EachNil(c, lo, rs[1..]);
      assert rs == [rs[0]] + rs[1..];
    }
  }

  lemma EachNone(c: Ctx, ns: Nodes, lo: nat)
    requires lo <= |c.s|
    ensures Each(c, ns, lo, []) == []
  {
  }

  lemma ConsNodes(c: Ctx, n: Node, tail: Nodes, r: Res)
    requires r.pos <= |c.s|
    ensures AllNodes(c, Cons(n, tail), r) == Each(c, tail, r.pos, AllNode(c, n, r))
  {
  }

  // ---------- atoms ----------

  /** What AtomNodes must match: the runs of the atom, then the tail. */
  function AtomWays(c: Ctx, x: Single, q: Quant, tail: Nodes, r: Res): seq<Res>
    requires r.pos <= |c.s|
  {
    Each(c, tail, r.pos, AtAll(r, AtomRuns(c, x, q, r.pos)))
  }

  lemma RepWays(c: Ctx, x: Single, k: Kind, tail: Nodes, r: Res)
    requires r.pos <= |c.s|
    ensures AllNodes(c, Cons(Rep(x, k), tail), r) == AtomWays(c, x, Q(k.Min(), k.Max(), k.M()), tail, r)
  {
    ConsNodes(c, Rep(x, k), tail, r);
  }

  lemma OneWays(c: Ctx, x: Single, tail: Nodes, r: Res)
    requires r.pos <= |c.s|
    ensures AllNodes(c, Cons(One(x), tail), r) == AtomWays(c, x, NoQ, tail, r)
    ensures AllNodes(c, Cons(One(x), tail), r) == AtomWays(c, x, Q(1, 1, Greedy), tail, r)
  {
    ConsNodes(c, One(x), tail, r);
    if AcceptsAt(c, x, r.pos) { assert Runs(c, x, 0, 0, false, r.pos + 1) == [r.pos + 1]; }
    assert AllNode(c, One(x), r) == AtAll(r, AtomRuns(c, x, NoQ, r.pos));
  }

  /** A fixed minimum, then the optional part n more (-1: no limit). */
  lemma FixedThen(c: Ctx, x: Single, min: nat, n: int, mode: Mode, e: Nodes, tail: Nodes, r: Res)
    requires r.pos <= |c.s| && -1 <= n
    requires r.pos + min <= |c.s| ==>
      var r' := r.(pos := r.pos + min); AllNodes(c, e, r') == AtomWays(c, x, Q(0, n, mode), tail, r')
    ensures AtomWays(c, x, Q(min, min, Greedy), e, r) ==
            AtomWays(c, x, Q(min, if n < 0 then -1 else min + n, mode), tail, r)
  {
    hide AllNodes, Each, AtomRuns, MinOk;
    var max, p := if n < 0 then -1 else min + n, r.pos + min;
    AtomRunsMin(c, x, min, min, Greedy, r.pos);
    AtomRunsMin(c, x, min, max, mode, r.pos);
    if MinOk(c, x, r.pos, min) {
      var r', ps := r.(pos := p), AtomRuns(c, x, Q(0, n, mode), p);
      RunsNone(c, x, Greedy, p);
      assert AtAll(r, [p]) == [r'] && AtAll(r, ps) == AtAll(r', ps);
      EachOne(c, e, r.pos, r');
      EachLo(c, tail, r.pos, p, AtAll(r, ps));
    } else {
      assert AtAll(r, []) == [];
      EachNone(c, e, r.pos);
      EachNone(c, tail, r.pos);
    }
  }

  /** First the minimum, then the rest. */
  lemma AtomRunsMin(c: Ctx, x: Single, min: nat, max: int, mode: Mode, pos: nat)
    requires pos <= |c.s| && -1 <= max && (max < 0 || min <= max)
    ensures MinOk(c, x, pos, min) ==> pos + min <= |c.s|
    ensures AtomRuns(c, x, Q(min, max, mode), pos) ==
      if MinOk(c, x, pos, min) then AtomRuns(c, x, Q(0, if max < 0 then -1 else max - min, mode), pos + min) else []
  {
    hide Runs, MinOk;
    RunsMin(c, x, min, max, mode == Lazy, pos);
  }

  lemma RunsNone(c: Ctx, x: Single, mode: Mode, pos: nat)
    requires pos <= |c.s|
    ensures AtomRuns(c, x, Q(0, 0, mode), pos) == [pos]
  {
  }

  lemma NoneWays(c: Ctx, x: Single, mode: Mode, tail: Nodes, r: Res)
    requires r.pos <= |c.s|
    ensures AtomWays(c, x, Q(0, 0, mode), tail, r) == AllNodes(c, tail, r)
  {
    hide AtomRuns, AllNodes, Each;
    RunsNone(c, x, mode, r.pos);
    assert AtAll(r, [r.pos]) == [r];
    EachOne(c, tail, r.pos, r);
  }

  lemma ExtraWays(c: Ctx, x: Single, n: int, mode: Mode, tail: Nodes, r: Res)
    requires r.pos <= |c.s| && -1 <= n
    ensures AllNodes(c, Extra(x, n, mode, tail), r) == AtomWays(c, x, Q(0, n, mode), tail, r)
  {
    hide AllNodes, AtomWays;
    if n < 0 {
      RepWays(c, x, Star(mode), tail, r);
    } else if n == 0 {
      NoneWays(c, x, mode, tail, r);
    } else if n == 1 {
      RepWays(c, x, Query(mode), tail, r);
    } else {
      RepWays(c, x, Upto(mode, n), tail, r);
    }
  }

  /** One is one, whatever the mode. */
  lemma OneMode(c: Ctx, x: Single, mode: Mode, tail: Nodes, r: Res)
    requires r.pos <= |c.s|
    ensures AtomWays(c, x, Q(1, 1, mode), tail, r) == AtomWays(c, x, NoQ, tail, r)
  {
    hide Each;
    var one := if AcceptsAt(c, x, r.pos) then [r.pos + 1] else [];
    forall lazy ensures Runs(c, x, 1, 1, lazy, r.pos) == one {
      if AcceptsAt(c, x, r.pos) { assert Runs(c, x, 0, 0, lazy, r.pos + 1) == [r.pos + 1]; }
    }
    assert AtomRuns(c, x, Q(1, 1, mode), r.pos) == AtomRuns(c, x, NoQ, r.pos);
  }

  lemma RepeatNodesWays(c: Ctx, x: Single, q: Quant, tail: Nodes, r: Res)
    requires r.pos <= |c.s| && ValidQuant(q)
    ensures AllNodes(c, RepeatNodes(x, q, tail), r) == AtomWays(c, x, q, tail, r)
  {
    hide AllNodes, AtomWays;
    match q
    case NoQ => OneWays(c, x, tail, r);
    case Q(min, max, mode) =>
      if max == 0 {
        NoneWays(c, x, mode, tail, r);
      } else if x.Class? {
        RepWays(c, x, ClassKind(q), tail, r);
      } else if min == 0 {
        ExtraWays(c, x, max, mode, tail, r);
      } else if min == 1 && max < 0 {
        RepWays(c, x, Plus(mode), tail, r);
      } else if min == 1 && max == 1 {
        OneWays(c, x, tail, r);
        OneMode(c, x, mode, tail, r);
      } else {
        FixedWays(c, x, q, tail, r);
      }
  }

  lemma FixedWays(c: Ctx, x: Single, q: Quant, tail: Nodes, r: Res)
    requires r.pos <= |c.s| && ValidQuant(q) && q.Q? && !x.Class? && q.min >= 1 && !(q.min == 1 && q.max <= 1)
    ensures AllNodes(c, RepeatNodes(x, q, tail), r) == AtomWays(c, x, q, tail, r)
  {
    hide AllNodes, AtomWays;
    var n := if q.max < 0 then -1 else q.max - q.min;
    var e := if q.min == 1 then Cons(Rep(x, Upto(q.mode, n)), tail) else Extra(x, n, q.mode, tail);
    if r.pos + q.min <= |c.s| {
      var r' := r.(pos := r.pos + q.min);
      if q.min == 1 { RepWays(c, x, Upto(q.mode, n), tail, r'); } else { ExtraWays(c, x, n, q.mode, tail, r'); }
    }
    FixedThen(c, x, q.min, n, q.mode, e, tail, r);
    if q.min == 1 { OneWays(c, x, e, r); } else { RepWays(c, x, Exact(q.min), e, r); }
  }

  lemma FirstAtAll(r: Res, ps: seq<nat>)
    ensures First(AtAll(r, ps)) == AtAll(r, if ps == [] then [] else [ps[0]])
  {
  }

  /** An atomic bracket keeps the first way of its items. */
  lemma OnceWays(c: Ctx, ns: Nodes, tail: Nodes, r: Res)
    requires r.pos <= |c.s|
    ensures Good(c, r.pos, First(AllNodes(c, ns, r)))
    ensures AllNodes(c, Cons(Once(ns), tail), r) == Each(c, tail, r.pos, First(AllNodes(c, ns, r)))
  {
    ConsNodes(c, Once(ns), tail, r);
  }

  /** A quantified atom compiles to items with the same ways of matching. */
  lemma AtomNodesWays(c: Ctx, x: Single, q: Quant, tail: Nodes, r: Res)
    requires r.pos <= |c.s| && ValidQuant(q)
    ensures AllNodes(c, AtomNodes(x, q, tail), r) == AtomWays(c, x, q, tail, r)
  {
    hide AllNodes, RepeatNodes;
    if Wrapped(x, q) {
      var ps := AtomRuns(c, x, Greedily(q), r.pos);
      OnceWays(c, RepeatNodes(x, Greedily(q), Nil), tail, r);
      RepeatNodesWays(c, x, Greedily(q), Nil, r);
      EachNil(c, r.pos, AtAll(r, ps));
      FirstAtAll(r, ps);
      hide Each, AtAll;
      assert AtomRuns(c, x, q, r.pos) == if ps == [] then [] else [ps[0]];
    } else {
      hide AtomWays;
      RepeatNodesWays(c, x, q, tail, r);
    }
  }

  // ---------- auto-possessification ----------

  /** No byte is accepted by both. */
  lemma ExcludesDisjoint(x: Single, y: Single, nocase: bool, b: Byte)
    requires ValidSingle(x, nocase) && ValidSingle(y, nocase) && Excludes(x, y)
    ensures !(Accepts(x, b) && Accepts(y, b))
  {
  }

  /** tail cannot start with a byte that x accepts. */
  ghost predicate Blocks(c: Ctx, x: Single, tail: Nodes) {
    forall r: Res :: r.pos <= |c.s| && AcceptsAt(c, x, r.pos) ==> AllNodes(c, tail, r) == []
  }

  lemma RunsStep(c: Ctx, x: Single, lazy: bool, p: nat)
    requires p <= |c.s|
    ensures Runs(c, x, 0, -1, lazy, p) ==
      if !AcceptsAt(c, x, p) then [p]
      else if lazy then [p] + Runs(c, x, 0, -1, lazy, p + 1) else Runs(c, x, 0, -1, lazy, p + 1) + [p]
    ensures Longest(c, x, p, -1) == if AcceptsAt(c, x, p) then Longest(c, x, p + 1, -1) else p
  {
  }

  lemma BlockedHere(c: Ctx, x: Single, tail: Nodes, r: Res)
    requires Blocks(c, x, tail) && r.pos <= |c.s| && AcceptsAt(c, x, r.pos)
    ensures AllNodes(c, tail, r) == []
  {
  }

  /** A position from which nothing goes on may be dropped from either end. */
  lemma DropEnd(c: Ctx, tail: Nodes, lo: nat, here: Res, rs: seq<Res>)
    requires lo <= here.pos <= |c.s| && Good(c, lo, rs) && AllNodes(c, tail, here) == []
    ensures Good(c, lo, [here] + rs) && Each(c, tail, lo, [here] + rs) == Each(c, tail, lo, rs)
    ensures Good(c, lo, rs + [here]) && Each(c, tail, lo, rs + [here]) == Each(c, tail, lo, rs)
  {
    hide AllNodes, Each;
    EachOne(c, tail, lo, here);
    EachAppend(c, tail, lo, [here], rs);
    EachAppend(c, tail, lo, rs, [here]);
  }

  lemma AtAllEnds(r: Res, p: nat, ps: seq<nat>)
    ensures AtAll(r, [p] + ps) == [r.(pos := p)] + AtAll(r, ps)
    ensures AtAll(r, ps + [p]) == AtAll(r, ps) + [r.(pos := p)]
    ensures AtAll(r, [p]) == [r.(pos := p)]
  {
  }

  /** Before such a tail only the longest run can go on. */
  lemma {:induction false} OnlyLongest(c: Ctx, x: Single, lazy: bool, p: nat, tail: Nodes, r: Res)
    requires r.pos <= p <= |c.s| && Blocks(c, x, tail)
    ensures Each(c, tail, r.pos, AtAll(r, Runs(c, x, 0, -1, lazy, p))) ==
            AllNodes(c, tail, r.(pos := Longest(c, x, p, -1)))
    decreases |c.s| - p
  {
    hide Runs, AllNodes, Each, Longest, Blocks, AtAll, AcceptsAt;
    var here := r.(pos := p);
    RunsStep(c, x, lazy, p);
    if AcceptsAt(c, x, p) {
      NextPos(c, x, p);
      var rest := Runs(c, x, 0, -1, lazy, p + 1);
      BlockedHere(c, x, tail, here);
      AtAllEnds(r, p, rest);
      DropEnd(c, tail, r.pos, here, AtAll(r, rest));
      OnlyLongest(c, x, lazy, p + 1, tail, r);
    } else {
      AtAllEnds(r, p, []);
      EachOne(c, tail, r.pos, here);
    }
  }

  lemma NextPos(c: Ctx, x: Single, p: nat)
    requires AcceptsAt(c, x, p)
    ensures p < |c.s|
  {
  }

  /** So the repeat may as well be possessive. */
  lemma PossessiveWays(c: Ctx, x: Single, min: nat, mode: Mode, tail: Nodes, r: Res)
    requires r.pos <= |c.s| && Blocks(c, x, tail) && mode != Possessive
    ensures AtomWays(c, x, Q(min, -1, mode), tail, r) == AtomWays(c, x, Q(min, -1, Possessive), tail, r)
  {
    hide Runs, AllNodes, Each, Longest, AtomRuns, Blocks, MinOk;
    AtomRunsMin(c, x, min, -1, mode, r.pos);
    AtomRunsMin(c, x, min, -1, Possessive, r.pos);
    if MinOk(c, x, r.pos, min) {
      var p := r.pos + min;
      var last := Longest(c, x, p, -1);
      LongestFirst(c, x, p);
      OnlyLongest(c, x, mode == Lazy, p, tail, r);
      assert AtAll(r, [last]) == [r.(pos := last)];
      EachOne(c, tail, r.pos, r.(pos := last));
    }
  }

  lemma LongestFirst(c: Ctx, x: Single, p: nat)
    requires p <= |c.s|
    ensures AtomRuns(c, x, Q(0, -1, Possessive), p) == [Longest(c, x, p, -1)]
    ensures forall mode :: mode != Possessive ==> AtomRuns(c, x, Q(0, -1, mode), p) == Runs(c, x, 0, -1, mode == Lazy, p)
  {
    RunsDown(c, x, -1, p);
  }

  lemma NoStart(c: Ctx, y: Single, q: Quant, pos: nat)
    requires pos <= |c.s| && !AcceptsAt(c, y, pos) && (q.Q? ==> q.min > 0)
    ensures AtomRuns(c, y, q, pos) == []
  {
  }

  /** An item that must match a byte, and accepts none of x's, blocks x. */
  lemma AtomBlocks(c: Ctx, x: Single, y: Single, q: Quant, tail: Nodes)
    requires ValidSingle(x, c.nocase) && ValidSingle(y, c.nocase) && Excludes(x, y)
    requires ValidQuant(q) && (q.Q? ==> q.min > 0)
    ensures Blocks(c, x, AtomNodes(y, q, tail))
  {
    forall r: Res | r.pos <= |c.s| && AcceptsAt(c, x, r.pos) ensures AllNodes(c, AtomNodes(y, q, tail), r) == [] {
      ExcludesDisjoint(x, y, c.nocase, c.s[r.pos]);
      AtomNodesWays(c, y, q, tail, r);
      NoStart(c, y, q, r.pos);
    }
  }

  // ---------- groups ----------

  /** The compiled group g, once, matches as i does. */
  ghost predicate SameOnce(c: Ctx, g: Group, i: Item, n: nat) {
    i.Paren? && g.ket == Ket && forall r: Res :: r.pos <= |c.s| ==> AllGroup(c, g, r) == SOnce(c, i, n, r)
  }

  lemma SameOnceAt(c: Ctx, g: Group, i: Item, n: nat, r: Res)
    requires SameOnce(c, g, i, n) && r.pos <= |c.s|
    ensures AllGroup(c, g, r) == SOnce(c, i, n, r)
  {
  }

  lemma IsParen(c: Ctx, g: Group, i: Item, n: nat)
    requires SameOnce(c, g, i, n)
    ensures i.Paren?
  {
  }

  /** A ket that does not repeat only records the capture. */
  lemma {:induction false} KetCloses(c: Ctx, g: Group, start: nat, rs: seq<Res>)
    requires start <= |c.s| && Good(c, start, rs) && g.ket == Ket
    ensures AfterKet(c, g, start, rs) == CloseAll(g.cap, start, rs)
    decreases |rs|
  {
    if rs != [] {
      KetCloses(c, g, start, rs[1..]);
      assert KetChoice(c, g, start, rs[0]) == [Close(g.cap, start, rs[0])];
      assert CloseAll(g.cap, start, rs) == [Close(g.cap, start, rs[0])] + CloseAll(g.cap, start, rs[1..]);
    }
  }

  /** If the items ns match as group i repeated, then the tail, from every single
      result, they do from a list of results. */
  ghost predicate SameRep(c: Ctx, ns: Nodes, i: Item, n: nat, min: nat, max: int, lazy: bool, tail: Nodes) {
    i.Paren? && forall r: Res :: r.pos <= |c.s| ==>
      AllNodes(c, ns, r) == Each(c, tail, r.pos, SRep(c, i, n, min, max, lazy, r))
  }

  lemma SameRepAt(c: Ctx, ns: Nodes, i: Item, n: nat, min: nat, max: int, lazy: bool, tail: Nodes, r: Res)
    requires SameRep(c, ns, i, n, min, max, lazy, tail) && r.pos <= |c.s|
    ensures AllNodes(c, ns, r) == Each(c, tail, r.pos, SRep(c, i, n, min, max, lazy, r))
  {
  }

  lemma {:induction false} RepEach(c: Ctx, ns: Nodes, i: Item, n: nat, min: nat, max: int, lazy: bool,
                                   tail: Nodes, lo: nat, rs: seq<Res>)
    requires SameRep(c, ns, i, n, min, max, lazy, tail) && lo <= |c.s| && Good(c, lo, rs)
    ensures Each(c, ns, lo, rs) == Each(c, tail, lo, SRepEach(c, i, n, min, max, lazy, lo, rs))
    decreases |rs|
  {
    assert i.Paren?;
    hide AllNodes, SRep, SameRep;
    if rs != [] {
      var a, b := SRep(c, i, n, min, max, lazy, rs[0]), SRepEach(c, i, n, min, max, lazy, lo, rs[1..]);
      SameRepAt(c, ns, i, n, min, max, lazy, tail, rs[0]);
      RepEach(c, ns, i, n, min, max, lazy, tail, lo, rs[1..]);
      EachLo(c, tail, lo, rs[0].pos, a);
      EachAppend(c, tail, lo, a, b);
    }
  }

  lemma SRepStep(c: Ctx, i: Item, n: nat, min: nat, max: int, lazy: bool, r: Res)
    requires r.pos <= |c.s| && i.Paren? && min > 0 && max != 0 && !(max < 0 && min == 1)
    ensures SRep(c, i, n, min, max, lazy, r) ==
      SRepEach(c, i, n, min - 1, if max < 0 then max else max - 1, lazy, r.pos, SOnce(c, i, n, r))
  {
  }

  /** One more copy in front. */
  lemma CopyRep(c: Ctx, g: Group, ns: Nodes, i: Item, n: nat, min: nat, max: int, lazy: bool, tail: Nodes)
    requires SameOnce(c, g, i, n) && SameRep(c, ns, i, n, min, max, lazy, tail) && (max < 0 ==> min > 0)
    ensures SameRep(c, Cons(Grp(NoPrefix, g), ns), i, n, min + 1, if max < 0 then max else max + 1, lazy, tail)
  {
    var max' := if max < 0 then max else max + 1;
    assert i.Paren?;
    forall r: Res | r.pos <= |c.s|
      ensures AllNodes(c, Cons(Grp(NoPrefix, g), ns), r) == Each(c, tail, r.pos, SRep(c, i, n, min + 1, max', lazy, r))
    {
      ConsNodes(c, Grp(NoPrefix, g), ns, r);
      assert AllNode(c, Grp(NoPrefix, g), r) == AllGroup(c, g, r);
      SameOnceAt(c, g, i, n, r);
      hide AllNodes, AllNode, SRep, SameRep, SameOnce, Each, SRepEach, SOnce;
      SRepStep(c, i, n, min + 1, max', lazy, r);
      RepEach(c, ns, i, n, min, max, lazy, tail, r.pos, SOnce(c, i, n, r));
    }
  }

  lemma {:induction false} CopiesRep(c: Ctx, k: nat, g: Group, ns: Nodes, i: Item, n: nat, min: nat, max: int, lazy: bool, tail: Nodes)
    requires SameOnce(c, g, i, n) && SameRep(c, ns, i, n, min, max, lazy, tail) && (max < 0 ==> min > 0)
    ensures SameRep(c, Copies(k, g, ns), i, n, min + k, if max < 0 then max else max + k, lazy, tail)
    decreases k
  {
    hide SameOnce, SameRep;
    if k > 0 {
      CopiesRep(c, k - 1, g, ns, i, n, min, max, lazy, tail);
      CopyRep(c, g, Copies(k - 1, g, ns), i, n, min + k - 1, if max < 0 then max else max + k - 1, lazy, tail);
    }
  }

  // ---------- optional copies ----------

  lemma ZeroTimes(c: Ctx, i: Item, n: nat, lazy: bool, r: Res)
    requires r.pos <= |c.s| && i.Paren?
    ensures SRep(c, i, n, 0, 0, lazy, r) == [r]
  {
  }

  lemma {:induction false} ZeroTimesEach(c: Ctx, i: Item, n: nat, lazy: bool, lo: nat, rs: seq<Res>)
    requires lo <= |c.s| && i.Paren? && Good(c, lo, rs)
    ensures SRepEach(c, i, n, 0, 0, lazy, lo, rs) == rs
    decreases |rs|
  {
    if rs != [] {
      ZeroTimes(c, i, n, lazy, rs[0]);
      ZeroTimesEach(c, i, n, lazy, lo, rs[1..]);
      assert rs == [rs[0]] + rs[1..];
    }
  }

  ghost predicate SameUpto(c: Ctx, node: Node, i: Item, n: nat, max: int, lazy: bool) {
    i.Paren? && forall r: Res :: r.pos <= |c.s| ==> AllNode(c, node, r) == SRep(c, i, n, 0, max, lazy, r)
  }

  /** A zero prefix makes a group that matches as one passage and max - 1 more optional. */
  lemma PrefixUpto(c: Ctx, g: Group, i: Item, n: nat, max: int, mode: Mode)
    requires i.Paren? && max > 0
    requires forall r: Res :: r.pos <= |c.s| ==>
      AllGroup(c, g, r) == SRepEach(c, i, n, 0, max - 1, mode == Lazy, r.pos, SOnce(c, i, n, r))
    ensures SameUpto(c, Grp(ZeroPrefix(mode), g), i, n, max, mode == Lazy)
  {
    forall r: Res | r.pos <= |c.s|
      ensures AllNode(c, Grp(ZeroPrefix(mode), g), r) == SRep(c, i, n, 0, max, mode == Lazy, r)
    {
      assert AllGroup(c, g, r) == SRepEach(c, i, n, 0, max - 1, mode == Lazy, r.pos, SOnce(c, i, n, r));
      hide AllGroup, SRepEach, SOnce, AllNode, SRep;
      PrefixedWays(c, g, mode, r);
      UptoWays(c, i, n, max, mode == Lazy, r);
    }
  }

  lemma PrefixedWays(c: Ctx, g: Group, mode: Mode, r: Res)
    requires r.pos <= |c.s|
    ensures AllNode(c, Grp(ZeroPrefix(mode), g), r) == if mode == Lazy then [r] + AllGroup(c, g, r) else AllGroup(c, g, r) + [r]
  {
    hide AllGroup;
  }

  lemma UptoWays(c: Ctx, i: Item, n: nat, max: int, lazy: bool, r: Res)
    requires r.pos <= |c.s| && i.Paren? && max > 0
    ensures var again := SRepEach(c, i, n, 0, max - 1, lazy, r.pos, SOnce(c, i, n, r));
      SRep(c, i, n, 0, max, lazy, r) == if lazy then [r] + again else again + [r]
  {
    hide SRepEach, SOnce;
  }

  lemma NestedUpto(c: Ctx, k: nat, g: Group, i: Item, n: nat, mode: Mode)
    requires k > 0 && SameOnce(c, g, i, n)
    ensures SameUpto(c, Nested(k, g, mode), i, n, k, mode == Lazy)
    decreases k
  {
    var lazy := mode == Lazy;
    assert i.Paren?;
    hide SameOnce;
    if k == 1 {
      forall r: Res | r.pos <= |c.s|
        ensures AllGroup(c, g, r) == SRepEach(c, i, n, 0, 0, lazy, r.pos, SOnce(c, i, n, r))
      {
        SameOnceAt(c, g, i, n, r);
        ZeroTimesEach(c, i, n, lazy, r.pos, SOnce(c, i, n, r));
      }
      PrefixUpto(c, g, i, n, 1, mode);
    } else {
      NestedUpto(c, k - 1, g, i, n, mode);
      var inner := Nested(k - 1, g, mode);
      var outer := Group(0, false, Cons(Grp(NoPrefix, g), Cons(inner, Nil)), NoAlt, Ket);
      forall r: Res | r.pos <= |c.s|
        ensures AllGroup(c, outer, r) == SRepEach(c, i, n, 0, k - 1, lazy, r.pos, SOnce(c, i, n, r))
      {
        NestOnce(c, g, inner, i, n, k - 1, lazy, r);
      }
      PrefixUpto(c, outer, i, n, k, mode);
    }
  }

  /** A plain bracket around a copy and what is nested after it. */
  lemma NestOnce(c: Ctx, g: Group, inner: Node, i: Item, n: nat, k: nat, lazy: bool, r: Res)
    requires SameOnce(c, g, i, n) && SameUpto(c, inner, i, n, k, lazy) && r.pos <= |c.s|
    ensures AllGroup(c, Group(0, false, Cons(Grp(NoPrefix, g), Cons(inner, Nil)), NoAlt, Ket), r) ==
            SRepEach(c, i, n, 0, k, lazy, r.pos, SOnce(c, i, n, r))
  {
    hide SameOnce, Each, SRep, SOnce, AllNodes, AllGroup, AllNode;
    var ns, b := Cons(inner, Nil), Cons(Grp(NoPrefix, g), Cons(inner, Nil));
    SameOnceAt(c, g, i, n, r);
    ConsNodes(c, Grp(NoPrefix, g), ns, r);
    PlainNode(c, g, r);
    forall x: Res | x.pos <= |c.s|
      ensures AllNodes(c, ns, x) == Each(c, Nil, x.pos, SRep(c, i, n, 0, k, lazy, x))
    {
      ConsNodes(c, inner, Nil, x);
    }
    RepEach(c, ns, i, n, 0, k, lazy, Nil, r.pos, SOnce(c, i, n, r));
    EachNil(c, r.pos, SRepEach(c, i, n, 0, k, lazy, r.pos, SOnce(c, i, n, r)));
    PlainGroup(c, b, r);
  }

  lemma PlainNode(c: Ctx, g: Group, r: Res)
    requires r.pos <= |c.s|
    ensures AllNode(c, Grp(NoPrefix, g), r) == AllGroup(c, g, r)
  {
    hide AllGroup;
  }

  /** A plain bracket with one branch is its branch. */
  lemma PlainGroup(c: Ctx, b: Nodes, r: Res)
    requires r.pos <= |c.s|
    ensures AllGroup(c, Group(0, false, b, NoAlt, Ket), r) == AllNodes(c, b, r)
  {
    var g, rs := Group(0, false, b, NoAlt, Ket), AllNodes(c, b, r);
    hide AllNodes, AfterKet;
    assert rs + AllAlts(c, NoAlt, r) == rs;
    KetCloses(c, g, r.pos, rs);
    assert CloseAll(0, r.pos, rs) == rs;
  }

  // ---------- unlimited repeats ----------

  /** The repeating last copy is the loop. */
  lemma {:induction false} UnlimitedLoop(c: Ctx, g: Group, i: Item, n: nat, mode: Mode, r: Res)
    requires SameOnce(c, g, i, n) && r.pos <= |c.s|
    ensures AllGroup(c, Unlimited(g, mode), r) == SLoop(c, i, n, mode == Lazy, r)
    decreases |c.s| - r.pos, 1, 0
  {
    var u := Unlimited(g, mode);
    var rs := AllNodes(c, g.b, r) + AllAlts(c, g.more, r);
    SameOnceAt(c, g, i, n, r);
    hide SameOnce, AllNodes, AllAlts, SOnce;
    KetCloses(c, g, r.pos, rs);
    UnlimitedEach(c, g, i, n, mode, r.pos, rs);
  }

  lemma {:induction false} UnlimitedEach(c: Ctx, g: Group, i: Item, n: nat, mode: Mode, start: nat, rs: seq<Res>)
    requires SameOnce(c, g, i, n) && start <= |c.s| && Good(c, start, rs)
    ensures AfterKet(c, Unlimited(g, mode), start, rs) ==
            SLoopEach(c, i, n, mode == Lazy, start, CloseAll(g.cap, start, rs))
    decreases |c.s| - start, 0, |rs|
  {
    hide SameOnce, AllGroup, SLoop;
    var u, xs := Unlimited(g, mode), CloseAll(g.cap, start, rs);
    if rs != [] {
      var x := Close(g.cap, start, rs[0]);
      assert xs == [x] + CloseAll(g.cap, start, rs[1..]);
      UnlimitedEach(c, g, i, n, mode, start, rs[1..]);
      if x.pos > start { UnlimitedLoop(c, g, i, n, mode, x); }
    }
  }

  // ---------- quantified groups ----------

  /** Ways of matching the quantified group i: SItem for a parenthesis. */
  lemma GroupNodesWays(c: Ctx, g: Group, i: Item, n: nat, tail: Nodes, r: Res)
    requires SameOnce(c, g, i, n) && ValidItem(i, c.nocase) && r.pos <= |c.s|
    ensures AllNodes(c, GroupNodes(g, i.q, tail), r) == Each(c, tail, r.pos, SItem(c, i, n, r))
  {
    IsParen(c, g, i, n);
    hide SameOnce, Each, SRep, AllGroup, SOnce, AllNodes, CopyNodes;
    match i.q
    case NoQ =>
      CopyNodesWays(c, g, i, n, i.q, tail, r);
      SameOnceAt(c, g, i, n, r);
    case Q(min, max, mode) =>
      if WrappedGroup(i.q) {
        var q := Greedily(i.q);
        OnceWays(c, CopyNodes(g, q, Nil), tail, r);
        CopyNodesWays(c, g, i, n, q, Nil, r);
        EachNil(c, r.pos, SRep(c, i, n, min, max, false, r));
      } else {
        CopyNodesWays(c, g, i, n, i.q, tail, r);
        if mode == Possessive { ZeroTimesAny(c, i, n, min, false, r); }
      }
  }

  lemma CopyNodesWays(c: Ctx, g: Group, i: Item, n: nat, q: Quant, tail: Nodes, r: Res)
    requires SameOnce(c, g, i, n) && i.Paren? && ValidQuant(q) && r.pos <= |c.s|
    ensures AllNodes(c, CopyNodes(g, q, tail), r) ==
      if q.NoQ? then Each(c, tail, r.pos, SOnce(c, i, n, r)) else Each(c, tail, r.pos, SRep(c, i, n, q.min, q.max, q.mode == Lazy, r))
  {
    hide SameOnce, Each, SRep, AllGroup, SOnce;
    match q
    case NoQ =>
      ConsNodes(c, Grp(NoPrefix, g), tail, r);
      SameOnceAt(c, g, i, n, r);
    case Q(min, max, mode) =>
      if max == 0 {
        ConsNodes(c, Grp(SkipZero, g), tail, r);
        ZeroTimesAny(c, i, n, min, mode == Lazy, r);
      } else if max < 0 {
        UnlimitedWays(c, g, i, n, q, tail, r);
      } else {
        LimitedWays(c, g, i, n, q, tail, r);
      }
  }

  lemma ZeroTimesAny(c: Ctx, i: Item, n: nat, min: nat, lazy: bool, r: Res)
    requires r.pos <= |c.s| && i.Paren?
    ensures SRep(c, i, n, min, 0, lazy, r) == [r]
  {
  }

  /** The repeating copy, alone: once or more. */
  lemma LastRep(c: Ctx, g: Group, i: Item, n: nat, mode: Mode, tail: Nodes)
    requires SameOnce(c, g, i, n)
    ensures SameRep(c, Cons(Grp(NoPrefix, Unlimited(g, mode)), tail), i, n, 1, -1, mode == Lazy, tail)
  {
    var last := Cons(Grp(NoPrefix, Unlimited(g, mode)), tail);
    assert i.Paren?;
    forall x: Res | x.pos <= |c.s|
      ensures AllNodes(c, last, x) == Each(c, tail, x.pos, SRep(c, i, n, 1, -1, mode == Lazy, x))
    {
      hide SameOnce, Each, AllGroup, SLoop;
      ConsNodes(c, Grp(NoPrefix, Unlimited(g, mode)), tail, x);
      UnlimitedLoop(c, g, i, n, mode, x);
    }
  }

  lemma UnlimitedWays(c: Ctx, g: Group, i: Item, n: nat, q: Quant, tail: Nodes, r: Res)
    requires SameOnce(c, g, i, n) && ValidQuant(q) && q.Q? && q.max < 0 && r.pos <= |c.s|
    ensures AllNodes(c, CopyNodes(g, q, tail), r) ==
            Each(c, tail, r.pos, SRep(c, i, n, q.min, -1, q.mode == Lazy, r))
  {
    hide SameOnce, Each, AllGroup, SLoop, SameRep, Copies;
    IsParen(c, g, i, n);
    var u, min, lazy := Unlimited(g, q.mode), q.min, q.mode == Lazy;
    if min == 0 {
      ConsNodes(c, Grp(ZeroPrefix(q.mode), u), tail, r);
      UnlimitedLoop(c, g, i, n, q.mode, r);
    } else {
      hide AllNodes, SRep;
      var last := Cons(Grp(NoPrefix, u), tail);
      LastRep(c, g, i, n, q.mode, tail);
      CopiesRep(c, min - 1, g, last, i, n, 1, -1, lazy, tail);
      SameRepAt(c, Copies(min - 1, g, last), i, n, min, -1, lazy, tail, r);
    }
  }

  /** Up to extra copies, then the tail. */
  lemma ExtraRep(c: Ctx, g: Group, i: Item, n: nat, extra: nat, mode: Mode, tail: Nodes)
    requires SameOnce(c, g, i, n)
    ensures SameRep(c, if extra > 0 then Cons(Nested(extra, g, mode), tail) else tail, i, n, 0, extra, mode == Lazy, tail)
  {
    var lazy := mode == Lazy;
    assert i.Paren?;
    if extra > 0 {
      var node := Nested(extra, g, mode);
      NestedUpto(c, extra, g, i, n, mode);
      hide SameOnce, Nested;
      forall x: Res | x.pos <= |c.s|
        ensures AllNodes(c, Cons(node, tail), x) == Each(c, tail, x.pos, SRep(c, i, n, 0, extra, lazy, x))
      {
        hide Each, SRep;
        ConsNodes(c, node, tail, x);
      }
    } else {
      forall x: Res | x.pos <= |c.s|
        ensures AllNodes(c, tail, x) == Each(c, tail, x.pos, SRep(c, i, n, 0, 0, lazy, x))
      {
        hide SameOnce, Each, SRep;
        ZeroTimes(c, i, n, lazy, x);
        EachOne(c, tail, x.pos, x);
      }
    }
  }

  lemma LimitedWays(c: Ctx, g: Group, i: Item, n: nat, q: Quant, tail: Nodes, r: Res)
    requires SameOnce(c, g, i, n) && ValidQuant(q) && q.Q? && q.max > 0 && r.pos <= |c.s|
    ensures AllNodes(c, CopyNodes(g, q, tail), r) ==
            Each(c, tail, r.pos, SRep(c, i, n, q.min, q.max, q.mode == Lazy, r))
  {
    hide SameOnce, Each, AllNodes, SRep, SameRep, Nested, Copies;
    IsParen(c, g, i, n);
    var min, extra, lazy := q.min, q.max - q.min, q.mode == Lazy;
    var ns := if extra > 0 then Cons(Nested(extra, g, q.mode), tail) else tail;
    ExtraRep(c, g, i, n, extra, q.mode, tail);
    CopiesRep(c, min, g, ns, i, n, 0, extra, lazy, tail);
    SameRepAt(c, Copies(min, g, ns), i, n, min, q.max, lazy, tail, r);
  }

  // ---------- the theorem ----------

  /** No repeat is made possessive because of an item that {0} then removes. */
  predicate Safe(b: Branch) {
    match b
    case Empty => true
    case Then(i, rest) => SafeItem(i, rest) && Safe(rest)
  }

  predicate SafeItem(i: Item, next: Branch) {
    match i
    case Assertion(_) => true
    case Atom(x, q) => Possess(x, q, next) != q ==> !(next.Then? && next.i.Atom? && next.i.q.Q? && next.i.q.max == 0)
    case Paren(_, b, more, _) => Safe(b) && SafeMore(more)
  }

  predicate SafeMore(m: Branches) {
    match m
    case NoMore => true
    case Or(b, more) => Safe(b) && SafeMore(more)
  }

  lemma {:induction false} LowerBranchWays(c: Ctx, b: Branch, n: nat, r: Res)
    requires ValidBranch(b, c.nocase) && Safe(b) && r.pos <= |c.s|
    ensures AllNodes(c, LowerBranch(b, n, c.nocase), r) == SBranch(c, b, n, r)
    decreases b, 2
  {
    hide Each, SEach, SItem, AllNode;
    if b.Then? {
      var i, rest := b.i, b.rest;
      hide AllNodes, SBranch, LowerBranch, Safe, ValidBranch;
      BranchParts(b, c.nocase);
      LowerItemWays(c, i, rest, n, r);
      LowerEach(c, rest, n + CountItem(i), r.pos, SItem(c, i, n, r));
      SThen(c, i, rest, n, r);
    }
  }

  lemma BranchParts(b: Branch, nocase: bool)
    requires ValidBranch(b, nocase) && Safe(b) && b.Then?
    ensures ValidItem(b.i, nocase) && ValidBranch(b.rest, nocase) && Safe(b.rest) && b == Then(b.i, b.rest)
  {
    hide Excludes;
  }

  lemma SThen(c: Ctx, i: Item, rest: Branch, n: nat, r: Res)
    requires r.pos <= |c.s|
    ensures SBranch(c, Then(i, rest), n, r) == SEach(c, rest, n + CountItem(i), r.pos, SItem(c, i, n, r))
  {
  }

  lemma {:induction false} LowerEach(c: Ctx, b: Branch, n: nat, lo: nat, rs: seq<Res>)
    requires ValidBranch(b, c.nocase) && Safe(b) && lo <= |c.s| && Good(c, lo, rs)
    ensures Each(c, LowerBranch(b, n, c.nocase), lo, rs) == SEach(c, b, n, lo, rs)
    decreases b, 3, |rs|
  {
    hide AllNodes, SBranch, LowerBranch;
    if rs != [] {
      LowerBranchWays(c, b, n, rs[0]);
      LowerEach(c, b, n, lo, rs[1..]);
    }
  }

  lemma {:induction false} LowerMoreWays(c: Ctx, m: Branches, n: nat, r: Res)
    requires ValidMore(m, c.nocase) && SafeMore(m) && r.pos <= |c.s|
    ensures AllAlts(c, LowerMore(m, n, c.nocase), r) == SMore(c, m, n, r)
    decreases m, 2
  {
    hide AllNodes, SBranch, LowerBranch;
    if m.Or? {
      LowerBranchWays(c, m.b, n, r);
      LowerMoreWays(c, m.more, n + Count(m.b), r);
    }
  }

  lemma {:induction false} LowerGroupSame(c: Ctx, i: Item, n: nat)
    requires ValidItem(i, c.nocase) && i.Paren? && Safe(i.b) && SafeMore(i.more)
    ensures SameOnce(c, LowerGroup(i, n, c.nocase), i, n)
    decreases i, 1
  {
    hide AllNodes, AllAlts, SBranch, SMore, AfterKet, LowerBranch, LowerMore, Safe, SafeMore;
    var g, m := LowerGroup(i, n, c.nocase), Inside(i, n);
    forall r: Res | r.pos <= |c.s| ensures AllGroup(c, g, r) == SOnce(c, i, n, r) {
      LowerBranchWays(c, i.b, m, r);
      LowerMoreWays(c, i.more, m + Count(i.b), r);
      KetCloses(c, g, r.pos, AllNodes(c, g.b, r) + AllAlts(c, g.more, r));
    }
  }

  /** The items compiled for i, then the rest of the branch. */
  lemma {:induction false} LowerItemWays(c: Ctx, i: Item, rest: Branch, n: nat, r: Res)
    requires ValidItem(i, c.nocase) && ValidBranch(rest, c.nocase) && SafeItem(i, rest) && r.pos <= |c.s|
    ensures AllNodes(c, LowerBranch(Then(i, rest), n, c.nocase), r) ==
            Each(c, LowerBranch(rest, n + CountItem(i), c.nocase), r.pos, SItem(c, i, n, r))
    decreases i, 2
  {
    hide AllNodes, Each, AtomNodes, GroupNodes, SOnce, SRep;
    var tail := LowerBranch(rest, n + CountItem(i), c.nocase);
    match i
    case Assertion(op) =>
      ConsNodes(c, Zero(op), tail, r);
    case Atom(x, q) =>
      LowerAtom(c, x, q, rest, n, tail, r);
    case Paren(_, _, _, q) =>
      LowerGroupSame(c, i, n);
      GroupNodesWays(c, LowerGroup(i, n, c.nocase), i, n, tail, r);
  }

  lemma LowerAtom(c: Ctx, x: Single, q: Quant, rest: Branch, n: nat, tail: Nodes, r: Res)
    requires ValidItem(Atom(x, q), c.nocase) && ValidBranch(rest, c.nocase) && SafeItem(Atom(x, q), rest)
    requires r.pos <= |c.s| && tail == LowerBranch(rest, n, c.nocase)
    ensures AllNodes(c, AtomNodes(x, Possess(x, q, rest), tail), r) == AtomWays(c, x, q, tail, r)
  {
    var q' := Possess(x, q, rest);
    if q' != q {
      var y := rest.i;
      var after := LowerBranch(rest.rest, n, c.nocase);
      assert tail == AtomNodes(y.x, Possess(y.x, y.q, rest.rest), after);
      AtomBlocks(c, x, y.x, Possess(y.x, y.q, rest.rest), after);
      hide AllNodes, AtomWays, Blocks, LowerBranch;
      PossessiveWays(c, x, q.min, q.mode, tail, r);
    }
    hide AllNodes, AtomWays, LowerBranch;
    AtomNodesWays(c, x, q', tail, r);
  }

  /** The compiled pattern has the ways of matching of the pattern, in order. */
  lemma CompilePreserves(c: Ctx, b: Branch, more: Branches, r: Res)
    requires ValidBranch(b, c.nocase) && ValidMore(more, c.nocase) && Safe(b) && SafeMore(more)
    requires r.pos <= |c.s|
    ensures AllGroup(c, Compile(b, more, c.nocase), r) == SBranch(c, b, 0, r) + SMore(c, more, Count(b), r)
  {
    hide AllNodes, AllAlts, SBranch, SMore, AfterKet;
    var g := Compile(b, more, c.nocase);
    var rs := SBranch(c, b, 0, r) + SMore(c, more, Count(b), r);
    LowerBranchWays(c, b, 0, r);
    LowerMoreWays(c, more, Count(b), r);
    KetCloses(c, g, r.pos, rs);
    assert CloseAll(0, r.pos, rs) == rs;
  }

  // ---------- when auto-possessification is right ----------

  /** A byte that x accepts: every item that is made possessive has one. */
  function Sample(x: Single): Byte {
    match x
    case Lit(a, _) => a
    case NotLit(a, _) => if a == 48 then 49 else 48
    case Type(op) => if op == OP_DIGIT || op == OP_NOT_WHITESPACE || op == OP_WORDCHAR then 48 else 32
    case Class(_, _) => 0
  }

  lemma SampleAccepted(x: Single, y: Single, nocase: bool)
    requires ValidSingle(x, nocase) && Excludes(x, y)
    ensures Accepts(x, Sample(x))
  {
  }

  /** The greedy and the possessive form of x{min,} before the item y{q}, whatever follows. */
  ghost predicate MayPossess(x: Single, min: nat, mode: Mode, y: Single, q: Quant, nocase: bool) {
    forall c: Ctx, after: Nodes, r: Res :: c.nocase == nocase && r.pos <= |c.s| ==>
      AtomWays(c, x, Q(min, -1, mode), AtomNodes(y, q, after), r) ==
      AtomWays(c, x, Q(min, -1, Possessive), AtomNodes(y, q, after), r)
  }

  lemma {:induction false} AllAccepted(c: Ctx, x: Single, pos: nat, n: nat)
    requires forall i: nat :: pos <= i < pos + n ==> AcceptsAt(c, x, i)
    ensures MinOk(c, x, pos, n)
    decreases n
  {
    if n > 0 { AllAccepted(c, x, pos + 1, n - 1); }
  }

  /** A subject of n bytes that x accepts. */
  function AllSample(x: Single, n: nat, nocase: bool): Ctx {
    Ctx(seq(n, i => Sample(x)), nocase, false, false, false, false, false)
  }

  /** x{min,} and then x once more, on min + 1 bytes that x accepts: the possessive
      repeat takes them all, */
  lemma PossessiveNone(c: Ctx, x: Single, min: nat, nocase: bool, r: Res)
    requires Accepts(x, Sample(x)) && c == AllSample(x, min + 1, nocase) && r.pos == 0
    ensures AtomWays(c, x, Q(min, -1, Possessive), Cons(One(x), Nil), r) == []
  {
    hide AtomRuns, Runs, MinOk, AllNodes, Each, Accepts;
    var after, last := Cons(One(x), Nil), r.(pos := min + 1);
    AllAccepted(c, x, 0, min);
    AtomRunsMin(c, x, min, -1, Possessive, 0);
    LongestFirst(c, x, min);
    RunsStep(c, x, false, min);
    RunsStep(c, x, false, min + 1);
    hide Longest;
    AfterLast(c, x, last);
    assert AtAll(r, [min + 1]) == [last];
    EachOne(c, after, 0, last);
  }

  lemma SampleAt(c: Ctx, x: Single, n: nat, nocase: bool)
    requires Accepts(x, Sample(x)) && c == AllSample(x, n, nocase)
    ensures |c.s| == n && !AcceptsAt(c, x, n) && forall i: nat :: i < n ==> AcceptsAt(c, x, i)
  {
  }

  lemma LastTwo(c: Ctx, x: Single, min: nat, mode: Mode, nocase: bool)
    requires Accepts(x, Sample(x)) && c == AllSample(x, min + 1, nocase) && mode != Possessive
    ensures |c.s| == min + 1
    ensures AtomRuns(c, x, Q(min, -1, mode), 0) == if mode == Lazy then [min, min + 1] else [min + 1, min]
  {
    hide AtomRuns, Runs, MinOk, Longest, AllSample, Accepts, AcceptsAt, Sample;
    SampleAt(c, x, min + 1, nocase);
    AllAccepted(c, x, 0, min);
    AtomRunsMin(c, x, min, -1, mode, 0);
    LongestFirst(c, x, min);
    RunsStep(c, x, mode == Lazy, min);
    RunsStep(c, x, mode == Lazy, min + 1);
  }

  /** but the greedy and the lazy one leave the last byte. */
  lemma GreedySome(c: Ctx, x: Single, min: nat, mode: Mode, nocase: bool, r: Res)
    requires Accepts(x, Sample(x)) && c == AllSample(x, min + 1, nocase) && r.pos == 0 && mode != Possessive
    ensures AtomWays(c, x, Q(min, -1, mode), Cons(One(x), Nil), r) != []
  {
    var after, one, last := Cons(One(x), Nil), r.(pos := min), r.(pos := min + 1);
    LastTwo(c, x, min, mode, nocase);
    AfterOne(c, x, one);
    hide AtomRuns, AllNodes, Each;
    assert [min] + [min + 1] == [min, min + 1] && [min + 1] + [min] == [min + 1, min];
    AtAllEnds(r, min, [min + 1]);
    AtAllEnds(r, min + 1, [min]);
    AtAllEnds(r, min, []);
    AtAllEnds(r, min + 1, []);
    hide AtAll;
    EachOne(c, after, 0, one);
    EachAppend(c, after, 0, [one], [last]);
    EachAppend(c, after, 0, [last], [one]);
  }

  lemma PossessFails(x: Single, min: nat, mode: Mode, y: Single, q: Quant, nocase: bool)
    requires Accepts(x, Sample(x)) && q.Q? && q.max == 0 && mode != Possessive
    ensures !MayPossess(x, min, mode, y, q, nocase)
  {
    var c, after, r := AllSample(x, min + 1, nocase), Cons(One(x), Nil), Res(0, [], 2);
    PossessiveNone(c, x, min, nocase, r);
    GreedySome(c, x, min, mode, nocase, r);
    assert AtomNodes(y, q, after) == after;
    hide AtomWays;
  }

  lemma AfterLast(c: Ctx, x: Single, r: Res)
    requires r.pos == |c.s|
    ensures AllNodes(c, Cons(One(x), Nil), r) == []
  {
    ConsNodes(c, One(x), Nil, r);
  }

  lemma AfterOne(c: Ctx, x: Single, r: Res)
    requires r.pos < |c.s| && Accepts(x, c.s[r.pos])
    ensures AllNodes(c, Cons(One(x), Nil), r) == [r.(pos := r.pos + 1)]
  {
    ConsNodes(c, One(x), Nil, r);
    EachOne(c, Nil, r.pos, r.(pos := r.pos + 1));
  }

  /** When check_auto_possessive allows it, the possessive form matches alike
      exactly when the next item is not removed by {0}. */
  lemma PossessIff(x: Single, min: nat, mode: Mode, y: Single, q: Quant, rest: Branch, nocase: bool)
    requires ValidSingle(x, nocase) && ValidSingle(y, nocase) && ValidQuant(q) && mode != Possessive
    requires AutoPossess(x, Then(Atom(y, q), rest))
    ensures MayPossess(x, min, mode, y, q, nocase) <==> !(q.Q? && q.max == 0)
  {
    if q.Q? && q.max == 0 {
      SampleAccepted(x, y, nocase);
      PossessFails(x, min, mode, y, q, nocase);
    } else {
      forall c: Ctx, after: Nodes, r: Res | c.nocase == nocase && r.pos <= |c.s|
        ensures AtomWays(c, x, Q(min, -1, mode), AtomNodes(y, q, after), r) ==
                AtomWays(c, x, Q(min, -1, Possessive), AtomNodes(y, q, after), r)
      {
        AtomBlocks(c, x, y, q, after);
        PossessiveWays(c, x, min, mode, AtomNodes(y, q, after), r);
      }
    }
  }

  // ---------- when a repeat is made possessive ----------

  /** The pairs that check_auto_possessive looks at: no dot, no class, and no class of all
      bytes but one as the next item. */
  predicate LookedAt(x: Single, y: Single) {
    !x.Class? && !IsDot(x) && (y.Lit? || y.Type?) && !IsDot(y)
  }

  predicate IsDot(x: Single) { x.Type? && x.op in {OP_ANY, OP_ALLANY} }

  /** Of these it says yes to just the ones of which no byte is accepted by both. */
  lemma ExcludesIff(x: Single, y: Single, nocase: bool)
    requires ValidSingle(x, nocase) && ValidSingle(y, nocase)
    ensures Excludes(x, y) <==> LookedAt(x, y) && forall b: Byte :: !(Accepts(x, b) && Accepts(y, b))
  {
    if LookedAt(x, y) {
      match (x, y)
      case (Type(op), Type(op')) =>
        TypesIff(op, op');
      case (Lit(a, _), Type(op)) =>
        LitTypeIff(op, a, nocase);
      case (Type(op), Lit(a, _)) =>
        LitTypeIff(op, a, nocase);
      case (NotLit(a, _), Type(op)) =>
        NotLitType(op, a, nocase);
      case (Lit(a, _), Lit(b, _)) =>
        LitsIff(a, b, nocase);
      case (NotLit(a, _), Lit(b, _)) =>
        NotLitIff(a, b, nocase);
    }
  }

  /** So an unlimited repeat is compiled as a possessive one exactly if it is not one
      already and the next item is one of those, not optional, and cannot begin with what
      the repeat takes. */
  lemma PossessWhen(x: Single, q: Quant, next: Branch, nocase: bool)
    requires ValidSingle(x, nocase) && ValidBranch(next, nocase)
    ensures var p := Possess(x, q, next);
      var goes := q.Q? && q.max < 0 && q.mode != Possessive && next.Then? && next.i.Atom? &&
        !(next.i.q.Q? && next.i.q.min == 0 && next.i.q.max != 0) && LookedAt(x, next.i.x) &&
        forall b: Byte :: !(Accepts(x, b) && Accepts(next.i.x, b));
      p == if goes then Q(q.min, q.max, Possessive) else q
  {
    if next.Then? && next.i.Atom? { ExcludesIff(x, next.i.x, nocase); }
    hide Excludes, Accepts, LookedAt;
  }

  lemma LitsIff(a: Byte, b: Byte, nocase: bool)
    ensures Excludes(Lit(a, nocase), Lit(b, nocase)) <==> forall z: Byte :: !(Accepts(Lit(a, nocase), z) && Accepts(Lit(b, nocase), z))
  {
    CaseIff(a, b);
    hide Lcc, Fcc;
    assert Accepts(Lit(a, nocase), a) && Accepts(Lit(b, nocase), b);
  }

  lemma NotLitIff(a: Byte, b: Byte, nocase: bool)
    ensures Excludes(NotLit(a, nocase), Lit(b, nocase)) <==> forall z: Byte :: !(Accepts(NotLit(a, nocase), z) && Accepts(Lit(b, nocase), z))
  {
    CaseIff(a, b);
    hide Lcc, Fcc;
    assert Accepts(Lit(b, nocase), b);
  }

  lemma CaseIff(a: Byte, b: Byte)
    ensures Lcc(a) == Lcc(b) <==> a == b || a == Fcc(b)
  {
  }

  lemma TypesIff(op: Byte, op': Byte)
    requires OP_NOT_DIGIT <= op < OP_ANY && OP_NOT_DIGIT <= op' < OP_ANY
    ensures TypeExcludes(op, op') <==> forall b: Byte :: !(Accepts(Type(op), b) && Accepts(Type(op'), b))
  {
    var b: Byte := if TypeOk(op, 48) && TypeOk(op', 48) then 48 else if TypeOk(op, 65) && TypeOk(op', 65) then 65
      else if TypeOk(op, 32) && TypeOk(op', 32) then 32 else 33;
    if !TypeExcludes(op, op') { assert Accepts(Type(op), b) && Accepts(Type(op'), b); }
  }

  lemma LitTypeIff(op: Byte, a: Byte, nocase: bool)
    requires OP_NOT_DIGIT <= op < OP_ANY
    ensures !TypeOk(op, a) <==> forall b: Byte :: !(Accepts(Lit(a, nocase), b) && TypeOk(op, b))
  {
    assert Accepts(Lit(a, nocase), a);
  }

  lemma NotLitType(op: Byte, a: Byte, nocase: bool)
    requires OP_NOT_DIGIT <= op < OP_ANY
    ensures exists b: Byte :: Accepts(NotLit(a, nocase), b) && TypeOk(op, b)
  {
    var b: Byte := if op == OP_DIGIT || op == OP_WORDCHAR then (if a == 48 then 49 else 48)
      else if op == OP_WHITESPACE || op == OP_NOT_DIGIT || op == OP_NOT_WORDCHAR then (if a == 32 then 9 else 32)
      else if a == 48 then 49 else 48;
    assert Accepts(NotLit(a, nocase), b) && TypeOk(op, b);
  }
}
