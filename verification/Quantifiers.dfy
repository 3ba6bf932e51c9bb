/** What quantifiers mean: how far match() goes on a repeated item, or on a repeated
    group around one, greedy, lazy and possessive. */
module Quantifiers {
  import opened Bytes
  import opened Code
  import opened Semantics
  import opened Machine
  import opened Simulation
  import opened Pattern
  import opened Lowering
  import opened Theorems

  /** The positions from lo to hi, the last one first unless lazy. */
  function Steps(lo: nat, hi: nat, lazy: bool): (ps: seq<nat>)
    requires lo <= hi + 1
    decreases hi + 1 - lo
  {
    if lo > hi then [] else if lazy then [lo] + Steps(lo + 1, hi, lazy) else Steps(lo + 1, hi, lazy) + [lo]
  }

  /** The items from p to e are all accepted, as many as there are or as may be. */
  predicate Farthest(c: Ctx, x: Single, max: int, p: nat, e: nat) {
    p <= e <= |c.s| && (forall j :: p <= j < e ==> AcceptsAt(c, x, j)) && (max < 0 || e - p <= max) &&
    (!AcceptsAt(c, x, e) || e - p == max)
  }

  function Choices(min: nat, lazy: bool, p: nat, e: nat): seq<nat>
    requires p <= e
  {
    if p + min <= e then Steps(p + min, e, lazy) else []
  }

  lemma {:induction false} RunsAre(c: Ctx, x: Single, min: nat, max: int, lazy: bool, p: nat, e: nat)
    requires Farthest(c, x, max, p, e)
    ensures Runs(c, x, min, max, lazy, p) == Choices(min, lazy, p, e)
    decreases e - p
  {
    hide Accepts;
    if p < e {
      assert AcceptsAt(c, x, p);
      RunsAre(c, x, if min > 0 then min - 1 else 0, if max < 0 then max else max - 1, lazy, p + 1, e);
    } else {
      assert Steps(p + 1, p, lazy) == [];
    }
  }

  // ---------- groups ----------

  /** The item x in a group that captures nothing, with the quantifier q. */
  function Grouped(x: Single, q: Quant): Item { Paren(false, Then(Atom(x, NoQ), Empty), NoMore, q) }

  lemma OnceIs(c: Ctx, x: Single, q: Quant, n: nat, r: Res)
    requires r.pos <= |c.s|
    ensures SOnce(c, Grouped(x, q), n, r) == if AcceptsAt(c, x, r.pos) then [r.(pos := r.pos + 1)] else []
  {
    hide Accepts;
    var rs := SItem(c, Atom(x, NoQ), n, r);
    if AcceptsAt(c, x, r.pos) { assert Runs(c, x, 0, 0, false, r.pos + 1) == [r.pos + 1]; }
    assert rs == if AcceptsAt(c, x, r.pos) then [r.(pos := r.pos + 1)] else [];
    EachEmpty(c, n, r.pos, rs);
    assert SBranch(c, Then(Atom(x, NoQ), Empty), n, r) == rs;
    assert SMore(c, NoMore, n, r) == [];
  }

  lemma {:induction false} EachEmpty(c: Ctx, n: nat, lo: nat, rs: seq<Res>)
    requires lo <= |c.s| && Good(c, lo, rs)
    ensures SEach(c, Empty, n, lo, rs) == rs
    decreases |rs|
  {
    if rs != [] { EachEmpty(c, n, lo, rs[1..]); }
  }

  lemma {:induction false} LoopAre(c: Ctx, x: Single, q: Quant, n: nat, lazy: bool, r: Res, e: nat)
    requires Farthest(c, x, -1, r.pos, e)
    ensures SLoop(c, Grouped(x, q), n, lazy, r) == AtAll(r, Choices(1, lazy, r.pos, e))
    decreases e - r.pos
  {
    hide Accepts, SOnce;
    OnceIs(c, x, q, n, r);
    if r.pos < e {
      assert AcceptsAt(c, x, r.pos);
      var r1 := r.(pos := r.pos + 1);
      LoopAre(c, x, q, n, lazy, r1, e);
      assert SLoopEach(c, Grouped(x, q), n, lazy, r.pos, []) == [];
      assert [r1][1..] == [];
      assert AtAll(r1, Choices(1, lazy, r1.pos, e)) == AtAll(r, Choices(1, lazy, r1.pos, e));
      assert Choices(1, lazy, r.pos, e) == if lazy then [r.pos + 1] + Choices(1, lazy, r1.pos, e) else Choices(1, lazy, r1.pos, e) + [r.pos + 1];
    }
  }

  lemma {:induction false} RepAre(c: Ctx, x: Single, q: Quant, n: nat, min: nat, max: int, lazy: bool, r: Res, e: nat)
    requires Farthest(c, x, max, r.pos, e) && (max < 0 || min <= max)
    ensures SRep(c, Grouped(x, q), n, min, max, lazy, r) == AtAll(r, Choices(min, lazy, r.pos, e))
    decreases if max < 0 then min else max
  {
    hide Accepts, SOnce, SLoop;
    var p, rs := r.pos, SRep(c, Grouped(x, q), n, min, max, lazy, r);
    if max == 0 {
      OneStep(p, lazy);
    } else if max < 0 && min <= 1 {
      LoopAre(c, x, q, n, lazy, r, e);
      if min == 0 { ZeroOrMore(p, e, lazy); }
    } else {
      OnceIs(c, x, q, n, r);
      var less, max' := if min > 0 then min - 1 else 0, if max < 0 then max else max - 1;
      assert SRepEach(c, Grouped(x, q), n, less, max', lazy, p, []) == [];
      if p < e {
        assert AcceptsAt(c, x, p);
        var r1 := r.(pos := p + 1);
        RepAre(c, x, q, n, less, max', lazy, r1, e);
        assert [r1][1..] == [];
        assert SRepEach(c, Grouped(x, q), n, less, max', lazy, p, [r1]) == SRep(c, Grouped(x, q), n, less, max', lazy, r1);
        assert AtAll(r1, Choices(less, lazy, p + 1, e)) == AtAll(r, Choices(less, lazy, p + 1, e));
        if min == 0 { ZeroOrMore(p, e, lazy); OneLess(p, e, lazy); }
      } else if min == 0 {
        OneStep(p, lazy);
      }
    }
  }

  lemma OneStep(p: nat, lazy: bool)
    ensures Choices(0, lazy, p, p) == [p]
  {
    assert Steps(p + 1, p, lazy) == [];
  }

  lemma ZeroOrMore(p: nat, e: nat, lazy: bool)
    requires p <= e
    ensures Choices(0, lazy, p, e) == if lazy then [p] + Choices(1, lazy, p, e) else Choices(1, lazy, p, e) + [p]
  {
    if p == e { OneStep(p, lazy); }
  }

  lemma OneLess(p: nat, e: nat, lazy: bool)
    requires p < e
    ensures Choices(1, lazy, p, e) == Choices(0, lazy, p + 1, e)
  {
  }

  // ---------- match() ----------

  /** A repeated item, alone or in a group. */
  function Repeated(x: Single, grouped: bool, min: nat, max: int, mode: Mode): Item {
    if grouped then Grouped(x, Q(min, max, mode)) else Atom(x, Q(min, max, mode))
  }

  function Picked(min: nat, mode: Mode, p: nat, e: nat): seq<nat>
    requires p <= e
  {
    var all := Choices(min, mode == Lazy, p, e);
    if mode == Possessive && all != [] then [all[0]] else all
  }

  lemma WaysAre(c: Ctx, x: Single, grouped: bool, min: nat, max: int, mode: Mode, r: Res, e: nat)
    requires Farthest(c, x, max, r.pos, e) && (max < 0 || min <= max)
    ensures Matches(c, Then(Repeated(x, grouped, min, max, mode), Empty), NoMore, r) == AtAll(r, Picked(min, mode, r.pos, e))
  {
    hide Accepts, SRep, Runs;
    var i, all := Repeated(x, grouped, min, max, mode), Choices(min, mode == Lazy, r.pos, e);
    if grouped { RepAre(c, x, i.q, 0, min, max, mode == Lazy, r, e); } else { RunsAre(c, x, min, max, mode == Lazy, r.pos, e); }
    var rs := SItem(c, i, 0, r);
    assert rs == AtAll(r, Picked(min, mode, r.pos, e));
    hide SItem;
    EachEmpty(c, CountItem(i), r.pos, rs);
    assert SBranch(c, Then(i, Empty), 0, r) == rs;
    assert SMore(c, NoMore, Count(Then(i, Empty)), r) == [];
  }

  /** The choice that a repeat makes first, from those that are not empty if need be. */
  lemma {:induction false} FirstStep(c: Ctx, ms: nat, r: Res, lo: nat, hi: nat, lazy: bool)
    requires r.pos == ms <= lo <= hi + 1 && hi <= |c.s|
    ensures var least := if c.notempty && lo == ms then lo + 1 else lo;
      var out := Filter(c, ms, AtAll(r, Steps(lo, hi, lazy)));
      if least > hi then out == [] else out != [] && out[0] == r.(pos := if lazy then least else hi)
    decreases hi + 1 - lo
  {
    var rs := AtAll(r, Steps(lo, hi, lazy));
    if lo <= hi {
      var rest := AtAll(r, Steps(lo + 1, hi, lazy));
      FirstStep(c, ms, r, lo + 1, hi, lazy);
      var here := [r.(pos := lo)];
      assert rs == if lazy then here + rest else rest + here;
      FilterAppend(c, ms, if lazy then here else rest, if lazy then rest else here);
      assert here[1..] == [] && Filter(c, ms, []) == [];
    }
  }

  lemma FirstPicked(c: Ctx, min: nat, mode: Mode, r: Res, e: nat)
    requires r.pos <= e <= |c.s|
    ensures var least := if c.notempty && min == 0 then 1 else min;
      var out := Filter(c, r.pos, AtAll(r, Picked(min, mode, r.pos, e)));
      if e - r.pos < least then out == [] else out != [] && out[0] == r.(pos := if mode == Lazy then r.pos + least else e)
  {
    if r.pos + min <= e {
      FirstStep(c, r.pos, r, r.pos + min, e, mode == Lazy);
      var all := Steps(r.pos + min, e, mode == Lazy);
      if mode == Possessive {
        LastFirst(r.pos + min, e);
        assert AtAll(r, [all[0]])[1..] == [];
        assert Filter(c, r.pos, []) == [];
      }
    }
  }

  lemma {:induction false} LastFirst(lo: nat, hi: nat)
    requires lo <= hi
    ensures Steps(lo, hi, false) != [] && Steps(lo, hi, false)[0] == hi
    decreases hi - lo
  {
    if lo < hi { LastFirst(lo + 1, hi); } else { assert Steps(lo + 1, hi, false) == []; }
  }

  /** match() on a repeated item, alone or in a group: with fewer than the minimum it fails,
      and otherwise a lazy repeat takes the minimum, any other as many as it can; under
      PCRE_NOTEMPTY at least one. */
  lemma RepeatEnds(md: Md, st: State, x: Single, grouped: bool, min: nat, max: int, mode: Mode, e: nat)
    requires Launched(md, st, Then(Repeated(x, grouped, min, max, mode), Empty), NoMore)
    requires Farthest(md.c, x, max, md.mstart, e) && (max < 0 || min <= max)
    ensures var o := Call(md, st, Begin(md), false);
      var least := if md.c.notempty && min == 0 then 1 else min;
      || o.rc == MATCHLIMIT || o.rc == RECURSIONLIMIT
      || if e - md.mstart < least then o.rc == NOMATCH
         else o.rc == MATCH && o.st.endPtr == if mode == Lazy then md.mstart + least else e
  {
    hide Call, Matches, Filter, Usable, EncProgram, Compile, Farthest, Picked;
    var b := Then(Repeated(x, grouped, min, max, mode), Empty);
    InSubject(md.c, x, max, md.mstart, e);
    WaysAre(md.c, x, grouped, min, max, mode, Start(md, st), e);
    FirstPicked(md.c, min, mode, Start(md, st), e);
    MatchIsFirst(md, st, b, NoMore);
  }

  lemma InSubject(c: Ctx, x: Single, max: int, p: nat, e: nat)
    requires Farthest(c, x, max, p, e)
    ensures p <= e <= |c.s|
  {
  }
}
