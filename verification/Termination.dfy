/** match() always terminates on compiled patterns: a bound on its calls and depth
    that depends on the pattern and the subject only. */
module Termination {
  import opened Bytes
  import opened Code
  import opened Layout
  import opened Semantics
  import opened Machine
  import opened Shape
  import opened Repeats
  import opened Simulation
  import opened Correctness
  import opened Lowering
  import opened Emptiness

  // ---------- the measure ----------

  /** Work in a list of items on a subject of length n. */
  function W(n: nat, ns: Nodes): nat {
    match ns
    case Nil => 0
    case Cons(x, rest) => WNode(n, x) + W(n, rest)
  }

  function WNode(n: nat, x: Node): nat
  {
    match x
    case Rep(_, _) => n + 3
    case Grp(_, g) => 3 + WBranches(n, g) + n * (WBranches(n, g) + 3)
    case _ => 1
  }

  function WBranches(n: nat, g: Group): nat { W(n, g.b) + WAlts(n, g.more) }

  function WAlts(n: nat, a: Alts): nat {
    match a
    case NoAlt => 0
    case Alt(b, more) => 1 + W(n, b) + WAlts(n, more)
  }

  /** What further iterations of g may still cost, after one that started at pos. */
  function Loop(n: nat, g: Group, pos: nat): nat {
    if g.ket == Ket || pos >= n then 0 else (n - pos) * (WBranches(n, g) + 3)
  }

  /** Work that remains in k. */
  function Work(n: nat, k: Cont): nat {
    match k
    case Done => 0
    case In(ns, g, _, start, k') => 1 + W(n, ns) + Loop(n, g, start) + Work(n, k')
  }

  /** Calls that work m may need. */
  function Cost(m: nat): nat { if m == 0 then 1 else 2 + 2 * Cost(m - 1) }

  lemma {:induction false} CostUp(m: nat, m': nat)
    requires m <= m'
    ensures Cost(m) <= Cost(m')
    decreases m'
  {
    if m < m' { CostUp(m, m' - 1); }
  }

  lemma MulUp(a: nat, b: nat, x: nat)
    requires b <= a
    ensures b * x <= a * x && (b < a ==> b * x + x <= a * x)
  {
    assert a * x == b * x + (a - b) * x;
    if b < a { assert (a - b) * x == x + (a - b - 1) * x; }
  }

  lemma LoopFirst(n: nat, g: Group, pos: nat)
    requires pos <= n
    ensures Loop(n, g, pos) <= n * (WBranches(n, g) + 3)
  {
    MulUp(n, n - pos, WBranches(n, g) + 3);
  }

  lemma LoopNext(n: nat, g: Group, start: nat, pos: nat)
    requires start < pos <= n && g.ket != Ket
    ensures Loop(n, g, pos) + WBranches(n, g) + 3 <= Loop(n, g, start)
  {
    MulUp(n - start, n - pos, WBranches(n, g) + 3);
  }

  lemma WorkStep(n: nat, k: Cont)
    requires k.In? && k.ns.Cons?
    ensures Work(n, k) == Work(n, k.(ns := k.ns.rest)) + WNode(n, k.ns.n)
    ensures match k.ns.n
      case Rep(_, _) => Work(n, k) == Work(n, k.(ns := k.ns.rest)) + n + 3
      case Grp(_, g) => forall p :: 0 <= p <= n ==> Entry(n, g, p, k.(ns := k.ns.rest)) < Work(n, k)
      case _ => true
    ensures Work(n, k) > Work(n, k.(ns := k.ns.rest))
  {
    if k.ns.n.Grp? {
      forall p | 0 <= p <= n ensures Entry(n, k.ns.n.g, p, k.(ns := k.ns.rest)) < Work(n, k) {
        LoopFirst(n, k.ns.n.g, p);
      }
    }
  }

  /** Work from a bracket entered at pos. */
  function Entry(n: nat, g: Group, pos: nat, k2: Cont): nat { 2 + WBranches(n, g) + Loop(n, g, pos) + Work(n, k2) }

  // ---------- the invariant ----------

  /** The open brackets and what is left of their branches. */
  ghost predicate Open(c: Ctx, k: Cont, pos: nat) {
    k.In? ==>
      k.start <= pos <= |c.s| && ValidNodes(k.ns, c.nocase) && Guarded(k.ns) &&
      ValidGroup(k.g, c.nocase) && GuardedGroup(k.g) && Open(c, k.k, k.start)
  }

  /** The items must consume a byte. */
  predicate Sure(ns: Nodes) { !Hollow(ns) }

  predicate SureGroup(g: Group) { !HollowGroup(g) }

  /** A repeating bracket without the S form has consumed a byte since its start, or
      what is left of it will. sure: the items before those of k consume one. */
  predicate Forward(k: Cont, pos: nat, sure: bool) {
    k.In? ==>
      var s := sure || Sure(k.ns);
      (k.g.ket != Ket && !k.g.s ==> s || k.start < pos) && Forward(k.k, pos, s)
  }

  function Starts(k: Cont): seq<nat> {
    if k.Done? then [] else (if k.g.s then [k.start] else []) + Starts(k.k)
  }

  predicate Descends(chain: seq<nat>, pos: nat) {
    (forall i :: 0 <= i < |chain| ==> chain[i] <= pos) &&
    (forall i, j :: 0 <= i < j < |chain| ==> chain[j] <= chain[i])
  }

  predicate Above(a: seq<nat>, chain: seq<nat>) {
    |a| <= |chain| && forall i :: 0 <= i < |a| ==> a[i] <= chain[i]
  }

  /** The chain descends from pos, and its blocks are not below the starts of the
      open S brackets (blocks that were never popped may lie in between). */
  ghost predicate Sound(c: Ctx, k: Cont, pos: nat, chain: seq<nat>, sure: bool) {
    Open(c, k, pos) && Forward(k, pos, sure) && Descends(chain, pos) && Above(Starts(k), chain)
  }

  ghost predicate Live(md: Md, st: State, f: Frame, k: Cont) {
    MdOk(md) && Wf(md, st, f) && KAt(md.code, f.pc, k) && Sound(md.c, k, f.eptr, f.chain, false)
  }

  ghost predicate LiveGroup(md: Md, st: State, f: Frame, g: Group, k2: Cont) {
    MdOk(md) && Wf(md, st, f) && Has(md.code, f.pc, EncGroup(g)) && KAt(md.code, f.pc + Span(g) + 3, k2) &&
    ValidGroup(g, md.c.nocase) && GuardedGroup(g) && Sound(md.c, k2, f.eptr, f.chain, SureGroup(g))
  }

  // ---------- how the invariant is kept ----------

  lemma {:induction false} OpenUp(c: Ctx, k: Cont, pos: nat, pos': nat)
    requires Open(c, k, pos) && pos <= pos' <= |c.s|
    ensures Open(c, k, pos')
  {
  }

  lemma {:induction false} ForwardUp(k: Cont, pos: nat, sure: bool, pos': nat, sure': bool)
    requires Forward(k, pos, sure) && pos <= pos' && (sure ==> sure')
    ensures Forward(k, pos', sure')
    decreases k
  {
    if k.In? { ForwardUp(k.k, pos, sure || Sure(k.ns), pos', sure' || Sure(k.ns)); }
  }

  /** Later positions, and more certainty, keep the invariant. */
  lemma SoundUp(c: Ctx, k: Cont, pos: nat, chain: seq<nat>, sure: bool, pos': nat, sure': bool)
    requires Sound(c, k, pos, chain, sure) && pos <= pos' <= |c.s| && (sure ==> sure')
    ensures Sound(c, k, pos', chain, sure')
  {
    hide Starts, Forward, Open;
    OpenUp(c, k, pos, pos');
    ForwardUp(k, pos, sure, pos', sure');
  }

  /** A block more at the top of the chain does no harm. */
  lemma SoundPush(c: Ctx, k: Cont, pos: nat, chain: seq<nat>, sure: bool)
    requires Sound(c, k, pos, chain, sure)
    ensures Sound(c, k, pos, [pos] + chain, sure)
  {
    hide Starts, Forward, Open;
    var a, up := Starts(k), [pos] + chain;
    forall i | 0 <= i < |a| ensures a[i] <= up[i] {
      if i > 0 { assert chain[i] <= chain[i - 1]; } else { assert chain[0] <= pos; }
    }
  }

  lemma {:induction false} ForwardAhead(c: Ctx, k: Cont, pos: nat, pos': nat, sure: bool)
    requires Open(c, k, pos) && pos < pos'
    ensures Forward(k, pos', sure)
    decreases k
  {
    if k.In? {
      OpenUp(c, k.k, k.start, pos);
      ForwardAhead(c, k.k, pos, pos', sure || Sure(k.ns));
    }
  }

  /** Past the first item, which consumed pos' - pos bytes. */
  lemma SoundStep(c: Ctx, k: Cont, pos: nat, chain: seq<nat>, pos': nat)
    requires Sound(c, k, pos, chain, false) && k.In? && k.ns.Cons? && pos <= pos' <= |c.s|
    requires var n := k.ns.n;
      pos < pos' || n.Zero? || (n.Rep? && n.k.Min() == 0) || (n.Grp? && n.z != NoPrefix)
    ensures Sound(c, k.(ns := k.ns.rest), pos', chain, false)
  {
    var k2 := k.(ns := k.ns.rest);
    SoundUp(c, k, pos, chain, false, pos', false);
    if pos < pos' {
      ForwardAhead(c, k2, pos, pos', false);
    } else {
      assert HollowNode(k.ns.n) && (Hollow(k.ns) <==> Hollow(k2.ns));
      ForwardUp(k.k, pos', Sure(k.ns), pos', Sure(k2.ns));
    }
  }

  /** Going into the bracket that is the first item. */
  lemma SoundGroup(c: Ctx, k: Cont, pos: nat, chain: seq<nat>)
    requires Sound(c, k, pos, chain, false) && k.In? && k.ns.Cons? && k.ns.n.Grp?
    ensures Sound(c, k.(ns := k.ns.rest), pos, chain, SureGroup(k.ns.n.g))
  {
    var k2, g := k.(ns := k.ns.rest), k.ns.n.g;
    var s := SureGroup(g) || Sure(k2.ns);
    assert !HollowNode(k.ns.n) || !Hollow(k2.ns) <==> !Hollow(k.ns);
    assert Sure(k.ns) ==> s;
    ForwardUp(k.k, pos, Sure(k.ns), pos, s);
  }

  lemma SoundBranch(c: Ctx, b: Nodes, g: Group, gpc: nat, k2: Cont, pos: nat, chain: seq<nat>)
    requires Sound(c, k2, pos, chain, SureGroup(g)) && pos <= |c.s| && ValidGroup(g, c.nocase) && GuardedGroup(g)
    requires ValidNodes(b, c.nocase) && Guarded(b) && (SureGroup(g) ==> Sure(b))
    ensures Sound(c, In(b, g, gpc, pos, k2), pos, if g.s then [pos] + chain else chain, false)
  {
    var k := In(b, g, gpc, pos, k2);
    ForwardUp(k2, pos, SureGroup(g), pos, Sure(b));
    if g.s { SoundOpen(Starts(k2), chain, pos); }
    assert Starts(k) == (if g.s then [pos] else []) + Starts(k2);
    hide ValidGroup, ValidNodes, Guarded, Sure, SureGroup, Starts;
    assert Open(c, k, pos);
  }

  lemma SoundOpen(a: seq<nat>, chain: seq<nat>, pos: nat)
    requires Above(a, chain) && Descends(chain, pos)
    ensures Above([pos] + a, [pos] + chain) && Descends([pos] + chain, pos)
  {
  }

  /** At a ket: the bracket is closed, and one block popped for an S bracket. Another
      iteration comes only after progress. */
  lemma SoundKet(c: Ctx, k: Cont, pos: nat, chain: seq<nat>)
    requires Sound(c, k, pos, chain, false) && k.In? && k.ns.Nil?
    ensures k.g.s ==> chain != []
    ensures Sound(c, k.k, pos, if k.g.s then chain[1..] else chain, false)
    ensures k.g.ket != Ket && !(k.g.s && pos == chain[0]) ==> k.start < pos
  {
    OpenUp(c, k.k, k.start, pos);
    assert Starts(k) == (if k.g.s then [k.start] else []) + Starts(k.k);
  }

  // ---------- the bound ----------

  predicate Budget(md: Md, count: nat, depth: nat, x: nat) {
    count + x <= md.limit && depth + x <= md.rlimit
  }

  predicate Fine(st: State, o: Out, x: nat) {
    o.rc in {MATCH, NOMATCH} && o.st.count <= st.count + x
  }

  lemma {:induction false} TCall(md: Md, st: State, f: Frame, cbe: bool, k: Cont, m: nat)
    requires Live(md, st, f, k) && Work(|md.c.s|, k) <= m && Budget(md, st.count + 1, f.rdepth, Cost(m))
    ensures Fine(st, Call(md, st, f, cbe), 1 + Cost(m))
    decreases m, 5
  {
    hide Run, Work, KAt, Sound;
    if cbe { SoundPush(md.c, k, f.eptr, f.chain, false); }
    TRun(md, st.(count := st.count + 1), Pushed(f, cbe), k, m);
  }

  lemma {:induction false} TDeeper(md: Md, st: State, f: Frame, cbe: bool, k: Cont, m: nat)
    requires Live(md, st, f, k) && Work(|md.c.s|, k) <= m && Budget(md, st.count + 1, f.rdepth + 1, Cost(m))
    ensures Fine(st, Deeper(md, st, f, cbe), 1 + Cost(m))
    decreases m, 6
  {
    hide Call, Work, KAt, Sound;
    TCall(md, st, f.(rdepth := f.rdepth + 1), cbe, k, m);
  }

  lemma {:induction false} TRun(md: Md, st: State, f: Frame, k: Cont, m: nat)
    requires Live(md, st, f, k) && Work(|md.c.s|, k) <= m && Budget(md, st.count, f.rdepth, Cost(m))
    ensures Fine(st, Run(md, st, f), Cost(m))
    decreases m, 4, |md.code| - f.pc
  {
    hide Run, KAt, Sound;
    if k.Done? {
      RunEnd(md, st, f);
    } else if k.ns.Cons? {
      TNode(md, st, f, k, m);
    } else if f.pc == k.gpc + Span(k.g) {
      TKet(md, st, f, k, m);
    } else {
      BranchEnd(md, st, f, k);
      TRun(md, st, f.(pc := k.gpc + Span(k.g)), k, m);
    }
  }

  lemma RunEnd(md: Md, st: State, f: Frame)
    requires Wf(md, st, f) && KAt(md.code, f.pc, Done)
    ensures Run(md, st, f).rc in {MATCH, NOMATCH} && Run(md, st, f).st.count == st.count
  {
  }

  lemma OpenNode(c: Ctx, k: Cont, pos: nat)
    requires Open(c, k, pos) && k.In? && k.ns.Cons?
    ensures ValidNode(k.ns.n, c.nocase) && ValidNodes(k.ns.rest, c.nocase)
    ensures k.ns.n.Grp? ==> ValidGroup(k.ns.n.g, c.nocase) && GuardedGroup(k.ns.n.g)
  {
  }

  lemma {:induction false} TNode(md: Md, st: State, f: Frame, k: Cont, m: nat)
    requires Live(md, st, f, k) && Work(|md.c.s|, k) <= m && Budget(md, st.count, f.rdepth, Cost(m))
    requires k.In? && k.ns.Cons?
    ensures Fine(st, Run(md, st, f), Cost(m))
    decreases m, 3
  {
    hide Run, KAt, Sound, DecodeRepeat, Forward, Work, W, WNode, Open, ZeroOk, ValidGroup, GuardedGroup, EncGroup, EncRep, EncOne, Cost, Has;
    var n, k2 := k.ns.n, k.(ns := k.ns.rest);
    SoundOpens(md.c, k, f.eptr, f.chain);
    WorkStep(|md.c.s|, k);
    OpenNode(md.c, k, f.eptr);
    KAtStep(md.code, f.pc, k);
    match n
    case Zero(op) =>
      if ZeroOk(md.c, op, f.eptr) {
        SoundStep(md.c, k, f.eptr, f.chain, f.eptr);
        CostUp(m - 1, m);
        TRun(md, st, f.(pc := f.pc + 1), k2, m - 1);
      }
      RunZero(md, st, f, op);
    case One(x) =>
      NextByte(md, f.pc + |EncOne(x)|, k2);
      DecodeOne(md, f.pc, x);
      TRepeat(md, st, f, k, Repeat(x, 1, 1, false, false, f.pc + |EncOne(x)|), m);
    case Rep(x, kd) =>
      DecodeRep(md, f.pc, x, kd);
      TRepeat(md, st, f, k, Repeat(x, kd.Min(), kd.Max(), kd.M() == Lazy, kd.M() == Possessive, f.pc + |EncRep(x, kd)|), m);
    case Grp(z, g) =>
      TPrefixed(md, st, f, z, g, k, m);
  }

  lemma SoundOpens(c: Ctx, k: Cont, pos: nat, chain: seq<nat>)
    requires Sound(c, k, pos, chain, false)
    ensures Open(c, k, pos)
  {
  }

  // ---------- repeats ----------

  lemma {:induction false} TRepeat(md: Md, st: State, f: Frame, k: Cont, d: Repeat, m: nat)
    requires Live(md, st, f, k) && Work(|md.c.s|, k) <= m && Budget(md, st.count, f.rdepth, Cost(m))
    requires k.In? && k.ns.Cons? && (k.ns.n == One(d.x) || (k.ns.n.Rep? && k.ns.n.k.Min() == d.min))
    requires IsRepeatOp(At(md.code, f.pc)) && DecodeRepeat(md, f.pc) == d && KAt(md.code, d.next, k.(ns := k.ns.rest))
    requires (d.max < 0 || d.min <= d.max) && (k.ns.n.One? ==> d.min == d.max == 1)
    ensures Fine(st, Run(md, st, f), Cost(m))
    decreases m, 2
  {
    hide Run, KAt, Sound, DecodeRepeat, MinOk, Longest, Work, WNode, WalkBack, Lazily, RunRepeat;
    RunIsRepeat(md, st, f, d);
    WorkStep(|md.c.s|, k);
    if !MinOk(md.c, d.x, f.eptr, d.min) {
      RepeatFails(md, st, f, d);
    } else {
      var k2, first := k.(ns := k.ns.rest), f.eptr + d.min;
      var g := f.(eptr := first, pc := d.next);
      var last := Longest(md.c, d.x, first, if d.max < 0 then -1 else d.max - d.min);
      SoundStep(md.c, k, f.eptr, f.chain, first);
      RunTaken(md, st, f, d, first);
      CostUp(m - 1, m);
      if d.min == d.max {
        TRun(md, st, g, k2, m - 1);
      } else if d.lazy {
        TLazily(md, st, g, k2, d, d.min, m - 1);
      } else {
        SoundUp(md.c, k2, first, f.chain, false, last, false);
        if d.poss { TRun(md, st, g.(eptr := last), k2, m - 1); } else { TWalk(md, st, g.(eptr := last), k2, first, m - 1); }
      }
    }
  }

  lemma RepeatFails(md: Md, st: State, f: Frame, d: Repeat)
    requires Wf(md, st, f) && f.pc < |md.code| && f.pc < d.next && !MinOk(md.c, d.x, f.eptr, d.min)
    ensures RunRepeat(md, st, f, d) == Out(NOMATCH, st)
  {
  }

  lemma {:induction false} TWalk(md: Md, st: State, f: Frame, k2: Cont, pp: nat, m: nat)
    requires Live(md, st, f.(eptr := pp), k2) && pp <= f.eptr <= |md.c.s|
    requires f.eptr - pp + 1 + Work(|md.c.s|, k2) <= m && Budget(md, st.count, f.rdepth, Cost(m))
    ensures Fine(st, WalkBack(md, st, f, pp), Cost(m))
    decreases m, 1
  {
    hide Run, Call, Deeper, WalkBack, Work, KAt, Sound;
    WalkStep(md, st, f, pp);
    SoundUp(md.c, k2, pp, f.chain, false, f.eptr, false);
    TDeeper(md, st, f, false, k2, m - 1);
    var o := Deeper(md, st, f, false);
    if o.rc == NOMATCH && f.eptr > pp { TWalk(md, o.st, f.(eptr := f.eptr - 1), k2, pp, m - 1); }
  }

  lemma {:induction false} TLazily(md: Md, st: State, f: Frame, k2: Cont, d: Repeat, fi: nat, m: nat)
    requires Live(md, st, f, k2)
    requires |md.c.s| - f.eptr + 1 + Work(|md.c.s|, k2) <= m && Budget(md, st.count, f.rdepth, Cost(m))
    ensures Fine(st, Lazily(md, st, f, d, fi), Cost(m))
    decreases m, 1
  {
    hide Run, Call, Deeper, Work, KAt, Sound;
    TDeeper(md, st, f, false, k2, m - 1);
    var o := Deeper(md, st, f, false);
    if o.rc == NOMATCH && AcceptsAt(md.c, d.x, f.eptr) {
      SoundUp(md.c, k2, f.eptr, f.chain, false, f.eptr + 1, false);
      TLazily(md, o.st, f.(eptr := f.eptr + 1), k2, d, fi + 1, m - 1);
    }
  }

  // ---------- brackets ----------

  lemma {:induction false} TPrefixed(md: Md, st: State, f: Frame, z: Prefix, g: Group, k: Cont, m: nat)
    requires Live(md, st, f, k) && Work(|md.c.s|, k) <= m && Budget(md, st.count, f.rdepth, Cost(m))
    requires k.In? && k.ns.Cons? && k.ns.n == Grp(z, g) && ValidGroup(g, md.c.nocase) && GuardedGroup(g)
    requires Has(md.code, f.pc, EncNode(Grp(z, g))) && KAt(md.code, f.pc + |EncNode(Grp(z, g))|, k.(ns := k.ns.rest))
    ensures Fine(st, Run(md, st, f), Cost(m))
    decreases m, 2
  {
    hide Run, Call, Deeper, KAt, Sound, Has, Work, Entry, WNode, EncGroup, ValidGroup, GuardedGroup, SureGroup;
    var n, k2 := |md.c.s|, k.(ns := k.ns.rest);
    WorkStep(n, k);
    assert Entry(n, g, f.eptr, k2) <= m - 1 && Work(n, k2) <= m - 1;
    CostUp(m - 1, m);
    SoundGroup(md.c, k, f.eptr, f.chain);
    if z.NoPrefix? {
      assert EncNode(Grp(z, g)) == EncGroup(g);
      TGroup(md, st, f, g, k2, m - 1);
    } else {
      RunPrefix(md, st, f, z, g);
      SoundStep(md.c, k, f.eptr, f.chain, f.eptr);
      var inside, after := f.(pc := f.pc + 1), f.(pc := f.pc + 1 + Span(g) + 3);
      if z.BraZero? {
        TGroupDeeper(md, st, inside, false, g, k2, m - 1);
        var o := Deeper(md, st, inside, false);
        if o.rc == NOMATCH { TRun(md, o.st, after, k2, m - 1); }
      } else if z.BraMinZero? {
        TDeeper(md, st, after, false, k2, m - 1);
        var o := Deeper(md, st, after, false);
        if o.rc == NOMATCH { TGroup(md, o.st, inside, g, k2, m - 1); }
      } else {
        TRun(md, st, after, k2, m - 1);
      }
    }
  }

  lemma {:induction false} TGroupCall(md: Md, st: State, f: Frame, cbe: bool, g: Group, k2: Cont, m: nat)
    requires LiveGroup(md, st, f, g, k2) && Entry(|md.c.s|, g, f.eptr, k2) <= m
    requires Budget(md, st.count + 1, f.rdepth, Cost(m))
    ensures Fine(st, Call(md, st, f, cbe), 1 + Cost(m))
    decreases m, 5
  {
    hide Run, Entry, KAt, Sound, Has, EncGroup, ValidGroup, GuardedGroup, SureGroup;
    if cbe { SoundPush(md.c, k2, f.eptr, f.chain, SureGroup(g)); }
    TGroup(md, st.(count := st.count + 1), Pushed(f, cbe), g, k2, m);
  }

  lemma {:induction false} TGroupDeeper(md: Md, st: State, f: Frame, cbe: bool, g: Group, k2: Cont, m: nat)
    requires LiveGroup(md, st, f, g, k2) && Entry(|md.c.s|, g, f.eptr, k2) <= m
    requires Budget(md, st.count + 1, f.rdepth + 1, Cost(m))
    ensures Fine(st, Deeper(md, st, f, cbe), 1 + Cost(m))
    decreases m, 6
  {
    hide Call, Entry, KAt, Sound, Has, EncGroup, ValidGroup, GuardedGroup, SureGroup;
    TGroupCall(md, st, f.(rdepth := f.rdepth + 1), cbe, g, k2, m);
  }

  lemma {:induction false} TGroup(md: Md, st: State, f: Frame, g: Group, k2: Cont, m: nat)
    requires LiveGroup(md, st, f, g, k2) && Entry(|md.c.s|, g, f.eptr, k2) <= m
    requires Budget(md, st.count, f.rdepth, Cost(m))
    ensures Fine(st, Run(md, st, f), Cost(m))
    decreases m, 4
  {
    hide Call, Deeper, CapAlts, BraAlts, KAt, Sound, EncGroup, Has, Restore, BranchAt, BranchWork, Entry, BranchesOk;
    BranchWorks(|md.c.s|, g.b, g.more, g, f.pc, f.eptr, k2);
    var st1 := Started(md, st, g, f.eptr);
    GroupCode(md, f.pc, g);
    RunIsBra(md, st, f, g);
    hide Run;
    GroupSplit(md.c, g);
    if Room(md, g) {
      TCap(md, st1, f, g.b, g.more, g, f.pc, k2, m);
    } else {
      TAlts(md, st1, f, g.b, g.more, g, f.pc, k2, m);
    }
  }

  /** Branches b and more of g, good to go. */
  predicate BranchesOk(c: Ctx, b: Nodes, more: Alts, g: Group) {
    ValidNodes(b, c.nocase) && Guarded(b) && ValidAlts(more, c.nocase) && GuardedAlts(more) &&
    (SureGroup(g) ==> Sure(b) && !HollowAlts(more))
  }

  lemma GroupSplit(c: Ctx, g: Group)
    requires ValidGroup(g, c.nocase) && GuardedGroup(g)
    ensures BranchesOk(c, g.b, g.more, g)
  {
  }

  lemma NextBranch(c: Ctx, b: Nodes, more: Alts, g: Group)
    requires BranchesOk(c, b, more, g) && more.Alt?
    ensures BranchesOk(c, more.b, more.more, g)
  {
  }

  ghost predicate LiveBranch(md: Md, st: State, f: Frame, b: Nodes, more: Alts, g: Group, gpc: nat, k2: Cont) {
    && MdOk(md) && Wf(md, st, f) && f.pc < |md.code| && BranchAt(md.code, f.pc, b, more, g, gpc)
    && KAt(md.code, gpc + Span(g) + 3, k2) && Sound(md.c, k2, f.eptr, f.chain, SureGroup(g))
    && ValidGroup(g, md.c.nocase) && GuardedGroup(g) && BranchesOk(md.c, b, more, g)
  }

  lemma BranchLive(md: Md, st: State, f: Frame, b: Nodes, more: Alts, g: Group, gpc: nat, k2: Cont)
    requires LiveBranch(md, st, f, b, more, g, gpc, k2)
    ensures var open := f.(pc := f.pc + OpenLen(At(md.code, f.pc)));
      Live(md, st, Pushed(open, g.s), In(b, g, gpc, f.eptr, k2))
  {
    hide KAt, Sound, BranchAt, ValidGroup, GuardedGroup, SureGroup, Sure, ValidNodes, Guarded;
    BranchCode(md, f.pc, b, more, g, gpc, f.eptr, k2);
    SoundBranch(md.c, b, g, gpc, k2, f.eptr, f.chain);
  }

  /** Work from the branch b. */
  function BranchWork(n: nat, b: Nodes, more: Alts, g: Group, pos: nat, k2: Cont): nat {
    2 + W(n, b) + WAlts(n, more) + Loop(n, g, pos) + Work(n, k2)
  }

  lemma BranchWorks(n: nat, b: Nodes, more: Alts, g: Group, gpc: nat, pos: nat, k2: Cont)
    ensures Work(n, In(b, g, gpc, pos, k2)) < BranchWork(n, b, more, g, pos, k2)
    ensures more.Alt? ==> BranchWork(n, more.b, more.more, g, pos, k2) < BranchWork(n, b, more, g, pos, k2)
    ensures b == g.b && more == g.more ==> BranchWork(n, b, more, g, pos, k2) == Entry(n, g, pos, k2)
  {
    hide Loop;
  }

  /** The call for one branch. */
  lemma {:induction false} TBranch(md: Md, st: State, f: Frame, b: Nodes, more: Alts, g: Group, gpc: nat, k2: Cont, m: nat)
    requires LiveBranch(md, st, f, b, more, g, gpc, k2) && BranchWork(|md.c.s|, b, more, g, f.eptr, k2) <= m
    requires Budget(md, st.count, f.rdepth, Cost(m))
    ensures var open := f.(pc := f.pc + OpenLen(At(md.code, f.pc)));
      Fine(st, Call(md, st, open, g.s), 1 + Cost(m - 1)) && Fine(st, Deeper(md, st, open, g.s), 1 + Cost(m - 1))
    decreases m, 1
  {
    hide Run, KAt, Sound, BranchAt, BranchWork, Work, ValidGroup, GuardedGroup, BranchesOk, SureGroup;
    var open := f.(pc := f.pc + OpenLen(At(md.code, f.pc)));
    BranchLive(md, st, f, b, more, g, gpc, k2);
    var kb := In(b, g, gpc, f.eptr, k2);
    BranchWorks(|md.c.s|, b, more, g, gpc, f.eptr, k2);
    TRun(md, st.(count := st.count + 1), Pushed(open, g.s), kb, m - 1);
    TRun(md, st.(count := st.count + 1), Pushed(open.(rdepth := f.rdepth + 1), g.s), kb, m - 1);
  }

  lemma {:induction false} TCap(md: Md, st: State, f: Frame, b: Nodes, more: Alts, g: Group, gpc: nat, k2: Cont, m: nat)
    requires LiveBranch(md, st, f, b, more, g, gpc, k2) && BranchWork(|md.c.s|, b, more, g, f.eptr, k2) <= m
    requires Budget(md, st.count, f.rdepth, Cost(m))
    ensures Fine(st, CapAlts(md, st, f, g.s), Cost(m))
    decreases m, 2
  {
    hide Run, Call, Deeper, KAt, Sound, BranchAt, BranchWork, Get, ValidGroup, GuardedGroup, BranchesOk, SureGroup;
    BranchWorks(|md.c.s|, b, more, g, gpc, f.eptr, k2);
    TBranch(md, st, f, b, more, g, gpc, k2, m);
    var o := Deeper(md, st, f.(pc := f.pc + OpenLen(At(md.code, f.pc))), g.s);
    if o.rc == NOMATCH {
      if more.NoAlt? {
        LastCode(md, f.pc, b, g, gpc);
      } else {
        NextCode(md, f.pc, b, more, g, gpc);
        NextBranch(md.c, b, more, g);
        TCap(md, o.st, f.(pc := f.pc + Get(md.code, f.pc + 1)), more.b, more.more, g, gpc, k2, m - 1);
      }
    }
  }

  lemma LastCode(md: Md, pc: nat, b: Nodes, g: Group, gpc: nat)
    requires MdOk(md) && BranchAt(md.code, pc, b, NoAlt, g, gpc)
    ensures At(md.code, pc + Get(md.code, pc + 1)) != OP_ALT
  {
    hide EncNodes, EncGroup;
    GroupAt(md.code, gpc, g);
  }

  lemma {:induction false} TAlts(md: Md, st: State, f: Frame, b: Nodes, more: Alts, g: Group, gpc: nat, k2: Cont, m: nat)
    requires LiveBranch(md, st, f, b, more, g, gpc, k2) && BranchWork(|md.c.s|, b, more, g, f.eptr, k2) <= m
    requires Budget(md, st.count, f.rdepth, Cost(m))
    ensures Fine(st, BraAlts(md, st, f, g.s), Cost(m))
    decreases m, 2
  {
    hide Run, Call, Deeper, KAt, Sound, BranchAt, BranchWork, Get, ValidGroup, GuardedGroup, BranchesOk, SureGroup;
    BranchWorks(|md.c.s|, b, more, g, gpc, f.eptr, k2);
    TBranch(md, st, f, b, more, g, gpc, k2, m);
    if more.NoAlt? {
      LastCode(md, f.pc, b, g, gpc);
    } else {
      var o := Deeper(md, st, f.(pc := f.pc + OpenLen(At(md.code, f.pc))), g.s);
      NextCode(md, f.pc, b, more, g, gpc);
      if o.rc == NOMATCH {
        NextBranch(md.c, b, more, g);
        TAlts(md, o.st, f.(pc := f.pc + Get(md.code, f.pc + 1)), more.b, more.more, g, gpc, k2, m - 1);
      }
    }
  }

  // ---------- kets ----------

  lemma KetCode(md: Md, f: Frame, k: Cont)
    requires MdOk(md) && KAt(md.code, f.pc, k) && k.In? && f.pc == k.gpc + Span(k.g)
    ensures var g := k.g;
      && k.gpc < f.pc < |md.code| && KAt(md.code, f.pc + 3, k.k)
      && Has(md.code, k.gpc, EncGroup(g)) && At(md.code, f.pc) == KetOp(g.ket)
      && Get(md.code, f.pc + 1) == f.pc - k.gpc && At(md.code, k.gpc) == BraOp(g)
      && (0 < g.cap < 0x1_0000 ==> Get(md.code, k.gpc + 3) == g.cap)
  {
    GroupAt(md.code, k.gpc, k.g);
    hide EncGroup, Has;
  }

  lemma {:induction false} TKet(md: Md, st: State, f: Frame, k: Cont, m: nat)
    requires Live(md, st, f, k) && Work(|md.c.s|, k) <= m && Budget(md, st.count, f.rdepth, Cost(m))
    requires k.In? && k.ns.Nil? && f.pc == k.gpc + Span(k.g)
    ensures Fine(st, Run(md, st, f), Cost(m))
    decreases m, 3
  {
    hide EncGroup, Has, Run, AfterClose, KAt, Sound, Open, BraOp, KetOp, GuardedGroup, SureGroup, ValidGroup, Work, Entry;
    var g, n := k.g, |md.c.s|;
    SoundKet(md.c, k, f.eptr, f.chain);
    KetCode(md, f, k);
    KetOpen(md.c, k, f.eptr, f.chain);
    KetWork(n, k, f.eptr);
    var f1 := f.(chain := if g.s then f.chain[1..] else f.chain,
                 top := if g.cap == 0 then f.top else KetTop(md, f.top, g.cap));
    KetRuns(md, st, f, g, k.gpc);
    SoundUp(md.c, k.k, f.eptr, f1.chain, false, f.eptr, SureGroup(g));
    TClose(md, Closed(md, st, g, f.eptr), f1, k, g.s && f.eptr == f.chain[0], m);
  }

  lemma KetOpen(c: Ctx, k: Cont, pos: nat, chain: seq<nat>)
    requires Sound(c, k, pos, chain, false) && k.In?
    ensures ValidGroup(k.g, c.nocase) && GuardedGroup(k.g) && k.g.cap < 0x1_0000 && k.start <= pos <= |c.s|
  {
  }

  lemma KetWork(n: nat, k: Cont, pos: nat)
    requires k.In? && k.ns.Nil? && k.start <= pos <= n
    ensures Work(n, k.k) < Work(n, k)
    ensures k.g.ket != Ket && k.start < pos ==> Entry(n, k.g, pos, k.k) < Work(n, k)
  {
    if k.g.ket != Ket && k.start < pos { LoopNext(n, k.g, k.start, pos); }
  }

  lemma {:induction false} TClose(md: Md, st: State, f: Frame, k: Cont, empty: bool, m: nat)
    requires k.In? && MdOk(md) && Wf(md, st, f) && k.gpc < f.pc < |md.code| && At(md.code, f.pc) == KetOp(k.g.ket)
    requires KAt(md.code, f.pc + 3, k.k) && Sound(md.c, k.k, f.eptr, f.chain, false) && Work(|md.c.s|, k.k) < m
    requires k.g.ket != Ket && !empty ==> Entry(|md.c.s|, k.g, f.eptr, k.k) < m && LiveGroup(md, st, f.(pc := k.gpc), k.g, k.k)
    requires Budget(md, st.count, f.rdepth, Cost(m))
    ensures Fine(st, AfterClose(md, st, f, k.gpc, k.g.s, empty), Cost(m))
    decreases m, 2
  {
    hide Run, Call, Deeper, KAt, Sound, Work, Entry, Has, EncGroup, ValidGroup, GuardedGroup, SureGroup;
    var g, after, again := k.g, f.(pc := f.pc + 3), f.(pc := k.gpc);
    CostUp(m - 1, m);
    if g.ket == Ket || empty {
      TRun(md, st, after, k.k, m - 1);
    } else if g.ket == KetRMin {
      TDeeper(md, st, after, false, k.k, m - 1);
      var o := Deeper(md, st, after, false);
      if o.rc == NOMATCH {
        if g.s { TGroupDeeper(md, o.st, again, true, g, k.k, m - 1); } else { TGroupCall(md, o.st, again, false, g, k.k, m - 1); }
      }
    } else {
      TGroupDeeper(md, st, again, g.s, g, k.k, m - 1);
      var o := Deeper(md, st, again, g.s);
      if o.rc == NOMATCH { TCall(md, o.st, after, false, k.k, m - 1); }
    }
  }
}
