/** match() on compiled items returns the first result of their ordered-choice
    meaning, unless it hits a limit. */
module Simulation {
  import opened Bytes
  import opened Code
  import opened Layout
  import opened Semantics
  import opened Machine
  import opened Shape

  // ---------- what remains to be matched ----------

  /** The rest of the pattern: the items ns left in a branch of g, a bracket at
      gpc entered at subject position start, and then k after its ket. */
  datatype Cont = Done | In(ns: Nodes, g: Group, gpc: nat, start: nat, k: Cont)

  /** The code at pc is the code of k. */
  predicate KAt(code: seq<Byte>, pc: nat, k: Cont)
    decreases k
  {
    match k
    case Done => At(code, pc) == OP_END
    case In(ns, g, gpc, _, k') =>
      var end, ket := pc + |EncNodes(ns)|, gpc + Span(g);
      Has(code, gpc, EncGroup(g)) && Has(code, pc, EncNodes(ns)) &&
      (end == ket || (At(code, end) == OP_ALT && SkipAlts(code, end) == ket && end < ket)) &&
      KAt(code, ket + 3, k')
  }

  function OpenCaps(k: Cont): set<nat> {
    match k
    case Done => {}
    case In(_, g, _, _, k') => (if g.cap == 0 then {} else {g.cap}) + OpenCaps(k')
  }

  /** No S bracket is open, or a byte comes before the end of the innermost one. */
  predicate Behind(k: Cont) { k.Done? || !Hollow(k.ns) || (!k.g.s && Behind(k.k)) }

  function Lo(k: Cont): nat { if k.In? then k.start else 0 }

  /** g may stand where k follows it. */
  ghost predicate GroupOk(c: Ctx, g: Group, k: Cont) {
    ValidGroup(g, c.nocase) && OkGroup(c, g) && CapsGroup(g) !! OpenCaps(k) && CalmGroup(g, Behind(k))
  }

  ghost predicate KOk(c: Ctx, k: Cont) {
    match k
    case Done => true
    case In(ns, g, _, start, k') =>
      && Lo(k') <= start <= |c.s|
      && ValidNodes(ns, c.nocase) && OkNodes(c, ns) && GroupOk(c, g, k')
      && Caps(ns) !! OpenCaps(k) && Calm(ns, !g.s && Behind(k'))
      && KOk(c, k')
  }

  /** All ways to finish k after each of rs, in order. */
  function Outs(c: Ctx, ms: nat, k: Cont, rs: seq<Res>): seq<Res>
    requires Lo(k) <= |c.s| && Good(c, Lo(k), rs)
    decreases k
  {
    match k
    case Done => Filter(c, ms, rs)
    case In(ns, g, _, start, k') =>
      if Lo(k') <= start then Outs(c, ms, k', AfterKet(c, g, start, Each(c, ns, start, rs))) else []
  }

  /** NOTEMPTY rejects an empty match of the whole pattern. */
  function Filter(c: Ctx, ms: nat, rs: seq<Res>): seq<Res> {
    if rs == [] then []
    else (if c.notempty && rs[0].pos == ms then [] else [rs[0]]) + Filter(c, ms, rs[1..])
  }

  /** No open repeated bracket of the plain form reaches its ket without progress. */
  ghost predicate Prog(c: Ctx, k: Cont, rs: seq<Res>)
    requires Lo(k) <= |c.s| && Good(c, Lo(k), rs)
    decreases k
  {
    match k
    case Done => true
    case In(ns, g, _, start, k') =>
      var after := Each(c, ns, start, rs);
      Lo(k') <= start &&
      (g.ket != Ket && !g.s ==> Good(c, start + 1, after)) &&
      Prog(c, k', AfterKet(c, g, start, after))
  }

  lemma FilterAppend(c: Ctx, ms: nat, a: seq<Res>, b: seq<Res>)
    ensures Filter(c, ms, a + b) == Filter(c, ms, a) + Filter(c, ms, b)
    decreases |a|
  {
    if a == [] {
      assert a + b == b;
    } else {
      assert (a + b)[1..] == a[1..] + b;
      FilterAppend(c, ms, a[1..], b);
    }
  }

  lemma {:induction false} OutsAppend(c: Ctx, ms: nat, k: Cont, a: seq<Res>, b: seq<Res>)
    requires Lo(k) <= |c.s| && Good(c, Lo(k), a) && Good(c, Lo(k), b)
    ensures Good(c, Lo(k), a + b)
    ensures Outs(c, ms, k, a + b) == Outs(c, ms, k, a) + Outs(c, ms, k, b)
    decreases k
  {
    match k
    case Done => FilterAppend(c, ms, a, b);
    case In(ns, g, _, start, k') =>
      EachAppend(c, ns, start, a, b);
      var x, y := Each(c, ns, start, a), Each(c, ns, start, b);
      AfterKetAppend(c, g, start, x, y);
      if Lo(k') <= start {
        OutsAppend(c, ms, k', AfterKet(c, g, start, x), AfterKet(c, g, start, y));
      }
  }

  lemma GoodParts(c: Ctx, lo: nat, a: seq<Res>, b: seq<Res>)
    requires Good(c, lo, a + b)
    ensures Good(c, lo, a) && Good(c, lo, b)
  {
    assert forall i :: 0 <= i < |a| ==> (a + b)[i] == a[i];
    assert forall i :: 0 <= i < |b| ==> (a + b)[|a| + i] == b[i];
  }

  lemma {:induction false} ProgAppend(c: Ctx, k: Cont, a: seq<Res>, b: seq<Res>)
    requires Lo(k) <= |c.s| && Good(c, Lo(k), a) && Good(c, Lo(k), b)
    requires Good(c, Lo(k), a + b) && Prog(c, k, a + b)
    ensures Prog(c, k, a) && Prog(c, k, b)
    decreases k
  {
    match k
    case Done =>
    case In(ns, g, _, start, k') =>
      EachAppend(c, ns, start, a, b);
      var x, y := Each(c, ns, start, a), Each(c, ns, start, b);
      AfterKetAppend(c, g, start, x, y);
      ProgAppend(c, k', AfterKet(c, g, start, x), AfterKet(c, g, start, y));
      if g.ket != Ket && !g.s { GoodParts(c, start + 1, x, y); }
  }

  /** Matching the first item of k, then the rest of k. */
  lemma OutsStep(c: Ctx, ms: nat, k: Cont, r: Res)
    requires k.In? && k.ns.Cons? && k.start <= r.pos <= |c.s|
    ensures var rs, k2 := AllNode(c, k.ns.n, r), k.(ns := k.ns.rest);
      Good(c, k.start, rs) && Outs(c, ms, k, [r]) == Outs(c, ms, k2, rs) && Prog(c, k, [r]) == Prog(c, k2, rs)
  {
    var rs := AllNode(c, k.ns.n, r);
    assert [r][1..] == [];
    EachLo(c, k.ns.rest, k.start, r.pos, rs);
    assert Each(c, k.ns, k.start, [r]) == Each(c, k.ns.rest, k.start, rs);
  }

  lemma OutsNil(c: Ctx, ms: nat, k: Cont, r: Res)
    requires k.In? && k.ns.Nil? && k.start <= r.pos <= |c.s| && Lo(k.k) <= k.start
    ensures Good(c, k.start, [r])
    ensures var rs := AfterKet(c, k.g, k.start, [r]);
      Outs(c, ms, k, [r]) == Outs(c, ms, k.k, rs) && (Prog(c, k, [r]) ==> Prog(c, k.k, rs))
    ensures Prog(c, k, [r]) && k.g.ket != Ket && !k.g.s ==> r.pos > k.start
  {
    assert [r][1..] == [];
    assert Each(c, k.ns, k.start, [r]) == [r];
    assert [r][0].pos == r.pos;
  }

  // ---------- the invariant ----------

  ghost predicate MdOk(md: Md) { md.offsetEnd % 3 == 0 && |md.code| <= MAX_PATTERN_SIZE }

  /** The working slot of every open group holds its start. */
  ghost predicate Working(md: Md, k: Cont, vec: seq<int>)
    requires |vec| == md.offsetEnd && md.offsetEnd % 3 == 0
  {
    k.In? ==>
      (0 < 2 * k.g.cap < md.OffsetMax() ==> vec[md.offsetEnd - k.g.cap] == k.start) && Working(md, k.k, vec)
  }

  /** Outside the open groups, the vector holds the captures caps. */
  ghost predicate Agree(md: Md, k: Cont, vec: seq<int>, caps: seq<int>) {
    md.offsetEnd % 3 == 0 && |vec| == md.offsetEnd && |caps| == md.OffsetMax() &&
    (forall i :: 0 <= i < |caps| && i / 2 !in OpenCaps(k) ==> vec[i] == caps[i]) &&
    Working(md, k, vec)
  }

  /** v and w differ at most in the offset pairs of open groups. */
  ghost predicate Same(md: Md, open: set<nat>, v: seq<int>, w: seq<int>) {
    |v| == |w| == md.offsetEnd &&
    forall i :: 0 <= i < |v| && !(i < md.OffsetMax() && i / 2 in open) ==> v[i] == w[i]
  }

  /** For every open S bracket there is a block on the chain, which tells as well as its
      start whether nothing has been consumed at its ket: unless a byte is yet to come
      before that. sure: the items before those of k consume one. */
  ghost predicate ChainOk(k: Cont, pos: nat, chain: seq<nat>, sure: bool) {
    k.In? ==>
      var s := sure || !Hollow(k.ns);
      k.start <= pos &&
      if k.g.s
      then chain != [] && chain[0] <= pos && (s || (chain[0] == pos <==> k.start == pos)) && ChainOk(k.k, pos, chain[1..], s)
      else ChainOk(k.k, pos, chain, s)
  }

  /** Later positions, and more certainty, keep it. */
  lemma {:induction false} ChainUp(k: Cont, pos: nat, chain: seq<nat>, sure: bool, pos': nat, sure': bool)
    requires ChainOk(k, pos, chain, sure) && pos <= pos' && (sure ==> sure' || pos < pos')
    ensures ChainOk(k, pos', chain, sure')
    decreases k
  {
    if k.In? {
      var s, s' := sure || !Hollow(k.ns), sure' || !Hollow(k.ns);
      ChainUp(k.k, pos, if k.g.s then chain[1..] else chain, s, pos', s');
    }
  }

  /** A block more at the top does no harm where a byte is yet to come. */
  lemma {:induction false} ChainPush(k: Cont, pos: nat, x: nat, chain: seq<nat>, sure: bool)
    requires ChainOk(k, pos, chain, sure) && x <= pos && (sure || Behind(k))
    ensures ChainOk(k, pos, [x] + chain, sure)
    decreases k
  {
    if k.In? {
      var s, up := sure || !Hollow(k.ns), [x] + chain;
      assert up[1..] == chain;
      if k.g.s {
        ChainPush(k.k, pos, chain[0], chain[1..], s);
        assert [chain[0]] + chain[1..] == chain;
      } else {
        ChainPush(k.k, pos, x, chain, s);
      }
    }
  }

  ghost predicate Static(md: Md, st: State, f: Frame, k: Cont, r: Res, sure: bool) {
    MdOk(md) && Wf(md, st, f) && KOk(md.c, k) && Lo(k) <= f.eptr <= |md.c.s| &&
    f.top == r.top && Agree(md, k, st.vec, r.vec) && ChainOk(k, f.eptr, f.chain, sure)
  }

  lemma StaticUp(md: Md, st: State, f: Frame, k: Cont, r: Res, sure: bool, pos: nat, sure': bool)
    requires Static(md, st, f, k, r, sure) && f.eptr <= pos <= |md.c.s| && (sure ==> sure' || f.eptr < pos)
    ensures Static(md, st, f.(eptr := pos), k, r, sure')
  {
    hide KOk, Agree, ChainOk;
    ChainUp(k, f.eptr, f.chain, sure, pos, sure');
  }

  ghost predicate Ready(md: Md, st: State, f: Frame, k: Cont, r: Res) {
    Static(md, st, f, k, r, false) && f.eptr == r.pos && KAt(md.code, f.pc, k) && Prog(md.c, k, [r])
  }

  /** The outcome o, from vector vec, is the first of outs. */
  ghost predicate Goal(md: Md, open: set<nat>, vec: seq<int>, o: Out, outs: seq<Res>) {
    o.rc == MATCHLIMIT || o.rc == RECURSIONLIMIT ||
    if outs == [] then o.rc == NOMATCH && Same(md, open, vec, o.st.vec)
    else o.rc == MATCH && Matched(md, o.st, outs[0])
  }

  ghost predicate Matched(md: Md, st: State, r: Res) {
    st.endPtr == r.pos && st.endTop == r.top && |r.vec| == md.OffsetMax() <= |st.vec| &&
    st.vec[..md.OffsetMax()] == r.vec
  }

  lemma WorkingSame(md: Md, k: Cont, open: set<nat>, v: seq<int>, w: seq<int>)
    requires md.offsetEnd % 3 == 0 && Same(md, open, v, w) && Working(md, k, v)
    ensures Working(md, k, w)
  {
  }

  lemma AgreeSame(md: Md, k: Cont, v: seq<int>, w: seq<int>, caps: seq<int>)
    requires Agree(md, k, v, caps) && Same(md, OpenCaps(k), v, w)
    ensures Agree(md, k, w, caps)
  {
    WorkingSame(md, k, OpenCaps(k), v, w);
  }

  // ---------- code positions ----------

  lemma KAtStep(code: seq<Byte>, pc: nat, k: Cont)
    requires KAt(code, pc, k) && k.In? && k.ns.Cons?
    ensures Has(code, pc, EncNode(k.ns.n)) && At(code, pc) == EncNode(k.ns.n)[0]
    ensures KAt(code, pc + |EncNode(k.ns.n)|, k.(ns := k.ns.rest))
  {
    NodesAt(code, pc, k.ns.n, k.ns.rest);
  }
}
