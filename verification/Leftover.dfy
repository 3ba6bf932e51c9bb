/** What match() finds although blocks of inner S brackets stay on the chain of saved
    pointers: some way of matching, whenever there is one. */
module Leftover {
  import opened Bytes
  import opened Code
  import opened Layout
  import opened Semantics
  import opened Machine
  import opened Shape
  import opened Repeats
  import opened Simulation
  import opened Correctness
  import opened Emptiness
  import opened Termination
  import opened Language

  // ---------- what is still tried ----------

  /** At the ket of the first bracket of k, at p: the block on top of the chain makes
      the iteration look empty. */
  predicate Stopped(g: Group, p: nat, chain: seq<nat>) { g.s && chain != [] && chain[0] == p }

  function Popped(g: Group, chain: seq<nat>): seq<nat> { if g.s && chain != [] then chain[1..] else chain }

  /** The ket of g, passed at q, and then k. */
  ghost predicate Beyond(c: Ctx, g: Group, k: Cont, q: nat, e: nat)
    requires q <= |c.s|
  {
    exists q': nat :: q' <= |c.s| && Again(c, g, q, q') && Rest(c, k, q', e)
  }

  /** The rest k of the pattern can match from p to e, where kets that are reached
      without consuming a byte look at the chain: all that match() tries. */
  ghost predicate Left(c: Ctx, k: Cont, p: nat, chain: seq<nat>, e: nat)
    requires p <= |c.s|
    decreases k
  {
    match k
    case Done => e == p
    case In(ns, g, _, _, k') =>
      (exists q: nat :: p < q <= |c.s| && Ends(c, ns, p, q) && Beyond(c, g, k', q, e)) ||
      (Ends(c, ns, p, p) &&
       (Left(c, k', p, Popped(g, chain), e) ||
        (!Stopped(g, p, chain) && g.ket != Ket &&
         exists q: nat :: p < q <= |c.s| && EndsGroup(c, g, p, q) && Rest(c, k', q, e))))
  }

  predicate Under(chain: seq<nat>, p: nat) { forall i :: 0 <= i < |chain| ==> chain[i] <= p }

  lemma EndsUp(c: Ctx, ns: Nodes, p: nat, q: nat)
    requires p <= |c.s| && Ends(c, ns, p, q)
    ensures p <= q <= |c.s|
  {
    BareStays(c, ns, p, At0(q));
  }

  lemma GroupEndsUp(c: Ctx, g: Group, p: nat, q: nat)
    requires p <= |c.s| && EndsGroup(c, g, p, q)
    ensures p <= q <= |c.s|
  {
    var rs := AllGroup(c, g, At0(p));
    var i :| 0 <= i < |rs| && rs[i] == At0(q);
    assert rs[i].pos == q;
  }

  lemma RestIs(c: Ctx, k: Cont, p: nat, e: nat)
    requires p <= |c.s| && k.In?
    ensures Rest(c, k, p, e) <==> exists q: nat :: q <= |c.s| && Ends(c, k.ns, p, q) && Beyond(c, k.g, k.k, q, e)
  {
    hide Ends, Again;
    if Rest(c, k, p, e) {
      var q: nat, q': nat :| q <= |c.s| && q' <= |c.s| && Ends(c, k.ns, p, q) && Again(c, k.g, q, q') && Rest(c, k.k, q', e);
      assert Beyond(c, k.g, k.k, q, e);
    }
    if q: nat :| q <= |c.s| && Ends(c, k.ns, p, q) && Beyond(c, k.g, k.k, q, e) {
      var q': nat :| q' <= |c.s| && Again(c, k.g, q, q') && Rest(c, k.k, q', e);
    }
  }

  /** Where every block is below p, the chain makes no difference. */
  lemma {:induction false} RestLeft(c: Ctx, k: Cont, p: nat, chain: seq<nat>, e: nat)
    requires p <= |c.s| && Rest(c, k, p, e) && (forall i :: 0 <= i < |chain| ==> chain[i] < p)
    ensures Left(c, k, p, chain, e)
    decreases k
  {
    hide Ends, EndsGroup, Rest;
    if k.Done? {
      DoneRest(c, p, e);
    } else {
      RestIs(c, k, p, e);
      var q: nat :| q <= |c.s| && Ends(c, k.ns, p, q) && Beyond(c, k.g, k.k, q, e);
      EndsUp(c, k.ns, p, q);
      if q == p {
        var q': nat :| q' <= |c.s| && Again(c, k.g, q, q') && Rest(c, k.k, q', e);
        if q' == p {
          RestLeft(c, k.k, p, Popped(k.g, chain), e);
        } else {
          GroupEndsUp(c, k.g, p, q');
        }
      }
    }
  }

  lemma DoneRest(c: Ctx, p: nat, e: nat)
    requires p <= |c.s|
    ensures Rest(c, Done, p, e) <==> e == p
  {
  }

  lemma {:induction false} LeftRest(c: Ctx, k: Cont, p: nat, chain: seq<nat>, e: nat)
    requires p <= |c.s| && Left(c, k, p, chain, e)
    ensures Rest(c, k, p, e)
    decreases k
  {
    hide Ends, EndsGroup, Rest;
    if k.Done? {
      DoneRest(c, p, e);
    } else {
      RestIs(c, k, p, e);
      if !exists q: nat :: p < q <= |c.s| && Ends(c, k.ns, p, q) && Beyond(c, k.g, k.k, q, e) {
        if Left(c, k.k, p, Popped(k.g, chain), e) {
          LeftRest(c, k.k, p, Popped(k.g, chain), e);
          assert Again(c, k.g, p, p);
        } else {
          var q: nat :| p < q <= |c.s| && EndsGroup(c, k.g, p, q) && Rest(c, k.k, q, e);
          assert Again(c, k.g, p, q);
        }
        assert Beyond(c, k.g, k.k, p, e);
      }
    }
  }

  /** The first item, and then the others. */
  lemma LeftStep(c: Ctx, k: Cont, p: nat, chain: seq<nat>, e: nat) returns (q: nat)
    requires k.In? && k.ns.Cons? && p <= |c.s| && Left(c, k, p, chain, e) && Under(chain, p)
    ensures p <= q <= |c.s| && At0(q) in AllNode(c, k.ns.n, At0(p)) && Left(c, k.(ns := k.ns.rest), q, chain, e)
  {
    var n, rest, k2 := k.ns.n, k.ns.rest, k.(ns := k.ns.rest);
    hide Ends, EndsGroup, Rest, Beyond, AllNode;
    assert k.ns == Cons(n, rest);
    var end: nat := p;
    if m: nat :| p < m <= |c.s| && Ends(c, k.ns, p, m) && Beyond(c, k.g, k.k, m, e) { end := m; }
    EndsCons(c, n, rest, p, end);
    q :| 0 <= q <= |c.s| && At0(q) in AllNode(c, n, At0(p)) && Ends(c, rest, q, end);
    BareNodeStays(c, n, p, At0(q));
    EndsUp(c, rest, q, end);
    if q > p {
      RestIs(c, k2, q, e);
      RestLeft(c, k2, q, chain, e);
    }
  }

  // ---------- brackets ----------

  /** Through the bracket g, entered at p, and then k. */
  ghost predicate Enter(c: Ctx, g: Group, k: Cont, p: nat, chain: seq<nat>, e: nat)
    requires p <= |c.s|
  {
    exists q: nat :: p <= q <= |c.s| && EndsGroup(c, g, p, q) && Left(c, k, q, chain, e)
  }

  /** From the end of a branch at q. */
  ghost predicate AfterBranch(c: Ctx, g: Group, k: Cont, p: nat, q: nat, chain: seq<nat>, e: nat)
    requires p <= q <= |c.s|
  {
    if q == p then Left(c, k, p, chain, e) else Beyond(c, g, k, q, e)
  }

  /** Through one of the branches b and more of g. */
  ghost predicate Through(c: Ctx, b: Nodes, more: Alts, g: Group, k: Cont, p: nat, chain: seq<nat>, e: nat)
    requires p <= |c.s|
  {
    exists q: nat :: p <= q <= |c.s| && (Ends(c, b, p, q) || EndsAlts(c, more, p, q)) && AfterBranch(c, g, k, p, q, chain, e)
  }

  lemma EnterThrough(c: Ctx, g: Group, k: Cont, p: nat, chain: seq<nat>, e: nat)
    requires p <= |c.s| && Enter(c, g, k, p, chain, e)
    ensures Through(c, g.b, g.more, g, k, p, chain, e)
  {
    hide Ends, EndsGroup, EndsAlts, Rest, Left;
    var q: nat :| p <= q <= |c.s| && EndsGroup(c, g, p, q) && Left(c, k, q, chain, e);
    EndsGroupIff(c, g, p, q);
    LeftRest(c, k, q, chain, e);
    if EndsOnce(c, g, p, q) {
      assert Again(c, g, q, q);
      assert AfterBranch(c, g, k, p, q, chain, e);
    } else {
      var m: nat :| p < m <= |c.s| && EndsOnce(c, g, p, m) && EndsGroup(c, g, m, q);
      assert Again(c, g, m, q);
      assert AfterBranch(c, g, k, p, m, chain, e);
    }
  }

  /** The first branch, or one of the others. */
  lemma ThroughFirst(c: Ctx, b: Nodes, more: Alts, g: Group, gpc: nat, k: Cont, p: nat, chain: seq<nat>, e: nat)
    requires p <= |c.s| && Through(c, b, more, g, k, p, chain, e)
    ensures Left(c, In(b, g, gpc, p, k), p, if g.s then [p] + chain else chain, e) ||
            (more.Alt? && Through(c, more.b, more.more, g, k, p, chain, e))
  {
    hide Ends, EndsGroup, Rest, Beyond;
    var q: nat :| p <= q <= |c.s| && (Ends(c, b, p, q) || EndsAlts(c, more, p, q)) && AfterBranch(c, g, k, p, q, chain, e);
    var up := if g.s then [p] + chain else chain;
    assert Popped(g, up) == chain || !g.s;
    if Ends(c, b, p, q) {
      assert !g.s ==> Popped(g, up) == chain;
      assert Left(c, In(b, g, gpc, p, k), p, up, e);
    }
  }

  /** At a ket that does not look empty: go on, or go round again. */
  lemma LeftKet(c: Ctx, k: Cont, p: nat, chain: seq<nat>, up: seq<nat>, e: nat)
    requires p <= |c.s| && k.In? && k.ns.Nil? && Left(c, k, p, chain, e) && Under(up, p)
    ensures Left(c, k.k, p, Popped(k.g, chain), e) ||
            (!Stopped(k.g, p, chain) && k.g.ket != Ket && Enter(c, k.g, k.k, p, up, e))
  {
    hide EndsGroup, Rest;
    NilEnds(c, p);
    if !Left(c, k.k, p, Popped(k.g, chain), e) {
      var q: nat :| p < q <= |c.s| && EndsGroup(c, k.g, p, q) && Rest(c, k.k, q, e);
      RestLeft(c, k.k, q, up, e);
    }
  }

  lemma NilEnds(c: Ctx, p: nat)
    requires p <= |c.s|
    ensures forall q: nat :: Ends(c, Nil, p, q) <==> q == p
  {
  }

  // ---------- capture numbers ----------

  /** The number of the innermost open group. */
  function Inmost(k: Cont): nat { if k.Done? then 0 else if k.g.cap == 0 then Inmost(k.k) else k.g.cap }

  /** Numbers grow inwards, up to hi. */
  predicate Numbered(k: Cont, hi: nat) {
    k.In? ==> Formed(k.ns, Inmost(k), hi) && FormedGroup(k.g, Inmost(k.k), hi) && Numbered(k.k, hi)
  }

  lemma {:induction false} OpenBelow(k: Cont, hi: nat)
    requires Numbered(k, hi)
    ensures forall m :: m in OpenCaps(k) ==> 0 < m <= Inmost(k)
  {
    hide Formed, FormedAlts;
    if k.In? { OpenBelow(k.k, hi); }
  }

  lemma GroupApart(g: Group, k: Cont, hi: nat)
    requires FormedGroup(g, Inmost(k), hi) && Numbered(k, hi)
    ensures CapsGroup(g) !! OpenCaps(k) && g.cap !in OpenCaps(k) && g.cap <= Inmost(k) + hi && (g.cap != 0 ==> g.cap <= hi)
  {
    hide Formed, FormedAlts, CapsGroup, Numbered;
    OpenBelow(k, hi);
    FormedGroupCaps(g, Inmost(k), hi);
    OpenNoZero(k);
  }

  lemma {:induction false} OpenNoZero(k: Cont)
    ensures 0 !in OpenCaps(k)
  {
    if k.In? { OpenNoZero(k.k); }
  }

  // ---------- outcomes ----------

  /** The end of a match that PCRE_NOTEMPTY rejects. */
  predicate Rejected(md: Md, e: nat) { md.c.notempty && e == md.mstart }

  /** Nothing is left to be found. */
  ghost predicate Lost(md: Md, k: Cont, p: nat, chain: seq<nat>) {
    p <= |md.c.s| && forall e: nat :: Left(md.c, k, p, chain, e) ==> Rejected(md, e)
  }

  ghost predicate LostGroup(md: Md, g: Group, k: Cont, p: nat, chain: seq<nat>) {
    p <= |md.c.s| && forall e: nat :: Enter(md.c, g, k, p, chain, e) ==> Rejected(md, e)
  }

  ghost predicate LostBranches(md: Md, b: Nodes, more: Alts, g: Group, k: Cont, p: nat, chain: seq<nat>) {
    p <= |md.c.s| && forall e: nat :: Through(md.c, b, more, g, k, p, chain, e) ==> Rejected(md, e)
  }

  /** st holds one of the results. */
  ghost predicate OneOf(md: Md, st: State, outs: seq<Res>) { exists x: Res :: x in outs && Matched(md, st, x) }

  /** Only the pairs of open groups may differ; overflow is not set where the vector
      has room for the groups up to hi. */
  ghost predicate Kept(md: Md, hi: nat, open: set<nat>, st: State, st': State) {
    Same(md, open, st.vec, st'.vec) && (2 * hi < md.OffsetMax() ==> st'.overflow == st.overflow)
  }

  /** The outcome o, from st: one of outs, or none and then nothing was left. */
  ghost predicate Fate(md: Md, hi: nat, open: set<nat>, st: State, o: Out, outs: seq<Res>, lost: bool) {
    o.rc == MATCHLIMIT || o.rc == RECURSIONLIMIT ||
    (o.rc == MATCH && OneOf(md, o.st, outs) && (2 * hi < md.OffsetMax() ==> o.st.overflow == st.overflow)) ||
    (o.rc == NOMATCH && lost && Kept(md, hi, open, st, o.st))
  }

  lemma FateWiden(md: Md, hi: nat, open: set<nat>, st: State, o: Out, outs: seq<Res>, lost: bool, outs': seq<Res>, lost': bool)
    requires Fate(md, hi, open, st, o, outs, lost) && (forall x :: x in outs ==> x in outs')
    requires o.rc == NOMATCH && lost ==> lost'
    ensures Fate(md, hi, open, st, o, outs', lost')
  {
  }

  lemma FateNone(md: Md, hi: nat, open: set<nat>, st: State, outs: seq<Res>, lost: bool)
    requires lost && |st.vec| == md.offsetEnd
    ensures Fate(md, hi, open, st, Out(NOMATCH, st), outs, lost)
  {
  }

  // ---------- the invariant ----------

  ghost predicate Held(md: Md, hi: nat, st: State, f: Frame, k: Cont, r: Res) {
    f.top == r.top && Agree(md, k, st.vec, r.vec) && Numbered(k, hi)
  }

  ghost predicate Poised(md: Md, hi: nat, st: State, f: Frame, k: Cont, r: Res) {
    Live(md, st, f, k) && Held(md, hi, st, f, k, r) && f.eptr == r.pos && Lo(k) <= r.pos <= |md.c.s|
  }

  ghost predicate PoisedGroup(md: Md, hi: nat, st: State, f: Frame, g: Group, k2: Cont, r: Res) {
    LiveGroup(md, st, f, g, k2) && FormedGroup(g, Inmost(k2), hi) && Held(md, hi, st, f, k2, r) && f.eptr == r.pos &&
    Lo(k2) <= r.pos <= |md.c.s|
  }

  lemma PoisedAfter(md: Md, hi: nat, st: State, st': State, f: Frame, k: Cont, r: Res)
    requires Poised(md, hi, st, f, k, r) && Kept(md, hi, OpenCaps(k), st, st') && st'.count <= md.limit
    ensures Poised(md, hi, st', f, k, r)
  {
    hide KAt, Sound, Same, Agree, Numbered;
    AgreeSame(md, k, st.vec, st'.vec, r.vec);
    KeptLen(md, hi, OpenCaps(k), st, st');
  }

  lemma KeptLen(md: Md, hi: nat, open: set<nat>, st: State, st': State)
    requires Kept(md, hi, open, st, st')
    ensures |st'.vec| == |st.vec| == md.offsetEnd && Same(md, open, st.vec, st'.vec)
  {
  }

  // ---------- calls and the opcode loop ----------

  lemma {:induction false} WCall(md: Md, hi: nat, st: State, f: Frame, cbe: bool, k: Cont, r: Res)
    requires Poised(md, hi, st, Pushed(f, cbe), k, r)
    ensures Fate(md, hi, OpenCaps(k), st, Call(md, st, f, cbe), Outs(md.c, md.mstart, k, [r]), Lost(md, k, r.pos, Pushed(f, cbe).chain))
    decreases md.limit - st.count, 0, 0
  {
    hide Run, Outs, KAt, Sound, Agree, Numbered, OneOf, Lost, Same;
    if st.count < md.limit && f.rdepth < md.rlimit {
      WRun(md, hi, st.(count := st.count + 1), Pushed(f, cbe), k, r);
    }
  }

  lemma {:induction false} WDeeper(md: Md, hi: nat, st: State, f: Frame, cbe: bool, k: Cont, r: Res)
    requires Poised(md, hi, st, Pushed(f, cbe), k, r)
    ensures Fate(md, hi, OpenCaps(k), st, Deeper(md, st, f, cbe), Outs(md.c, md.mstart, k, [r]), Lost(md, k, r.pos, Pushed(f, cbe).chain))
    decreases md.limit - st.count, 0, 1
  {
    hide Call, Outs, KAt, Sound, Agree, Numbered, Fate, Lost;
    WCall(md, hi, st, f.(rdepth := f.rdepth + 1), cbe, k, r);
  }

  lemma {:induction false} WRun(md: Md, hi: nat, st: State, f: Frame, k: Cont, r: Res)
    requires Poised(md, hi, st, f, k, r)
    ensures Fate(md, hi, OpenCaps(k), st, Run(md, st, f), Outs(md.c, md.mstart, k, [r]), Lost(md, k, r.pos, f.chain))
    decreases md.limit - st.count, 1, |md.code| - f.pc, 9
  {
    hide Run, Outs, KAt, Sound, Agree, Numbered, Fate, Lost;
    if k.Done? {
      WEnd(md, hi, st, f, r);
    } else if k.ns.Cons? {
      WNode(md, hi, st, f, k, r);
    } else if f.pc == k.gpc + Span(k.g) {
      WKet(md, hi, st, f, k, r);
    } else {
      BranchEnd(md, st, f, k);
      WRun(md, hi, st, f.(pc := k.gpc + Span(k.g)), k, r);
    }
  }

  lemma WEnd(md: Md, hi: nat, st: State, f: Frame, r: Res)
    requires Poised(md, hi, st, f, Done, r)
    ensures Fate(md, hi, OpenCaps(Done), st, Run(md, st, f), Outs(md.c, md.mstart, Done, [r]), Lost(md, Done, r.pos, f.chain))
  {
    assert [r][1..] == [];
    assert Filter(md.c, md.mstart, [r]) == if Rejected(md, r.pos) then [] else [r];
    SameRefl(md, {}, st.vec);
    assert st.vec[..md.OffsetMax()] == r.vec;
    if !Rejected(md, r.pos) { assert r in Filter(md.c, md.mstart, [r]); }
  }

  lemma LiveFacts(md: Md, st: State, f: Frame, k: Cont)
    requires Live(md, st, f, k)
    ensures Open(md.c, k, f.eptr) && Sound(md.c, k, f.eptr, f.chain, false) && Under(f.chain, f.eptr) && f.eptr <= |md.c.s|
    ensures MdOk(md) && Wf(md, st, f) && KAt(md.code, f.pc, k)
  {
    hide Open, Forward, Above, KAt;
  }

  /** Past the first item of k. */
  lemma HeldStep(md: Md, hi: nat, st: State, f: Frame, k: Cont, r: Res)
    requires Held(md, hi, st, f, k, r) && k.In? && k.ns.Cons?
    ensures Held(md, hi, st, f, k.(ns := k.ns.rest), r) && OpenCaps(k.(ns := k.ns.rest)) == OpenCaps(k)
    ensures k.ns.n.Grp? ==> FormedGroup(k.ns.n.g, Inmost(k), hi)
  {
    hide FormedGroup;
  }

  /** If nothing is left behind any end of the first item, nothing is left. */
  lemma LostStep(md: Md, k: Cont, p: nat, chain: seq<nat>, ends: seq<nat>)
    requires k.In? && k.ns.Cons? && p <= |md.c.s| && Under(chain, p)
    requires forall q: nat :: At0(q) in AllNode(md.c, k.ns.n, At0(p)) ==> q in ends
    requires forall i :: 0 <= i < |ends| ==> Lost(md, k.(ns := k.ns.rest), ends[i], chain)
    ensures Lost(md, k, p, chain)
  {
    hide Left, AllNode;
    forall e: nat | Left(md.c, k, p, chain, e) ensures Rejected(md, e) {
      var q := LeftStep(md.c, k, p, chain, e);
      var i :| 0 <= i < |ends| && ends[i] == q;
      assert Lost(md, k.(ns := k.ns.rest), ends[i], chain);
    }
  }

  /** A first choice, and a second one after its failure. */
  lemma FateOr(md: Md, hi: nat, open: set<nat>, st: State, o1: Out, o: Out, a: seq<Res>, la: bool, b: seq<Res>, lb: bool, outs: seq<Res>, lost: bool)
    requires Fate(md, hi, open, st, o1, a, la) && (o1.rc != NOMATCH ==> o == o1)
    requires o1.rc == NOMATCH ==> Fate(md, hi, open, o1.st, o, b, lb)
    requires (outs == a + b || outs == b + a) && (la && lb ==> lost)
    ensures Fate(md, hi, open, st, o, outs, lost)
  {
    hide Matched, Same;
    SameTransAll(md, open);
    if o1.rc == NOMATCH { FateWiden(md, hi, open, o1.st, o, b, lb, outs, lost); } else { FateWiden(md, hi, open, st, o, a, la, outs, lost); }
  }

  lemma SameTransAll(md: Md, open: set<nat>)
    ensures forall u: seq<int>, v: seq<int>, w: seq<int> :: Same(md, open, u, v) && Same(md, open, v, w) ==> Same(md, open, u, w)
  {
  }

  lemma FateKept(md: Md, hi: nat, open: set<nat>, st: State, o: Out, outs: seq<Res>, lost: bool)
    requires Fate(md, hi, open, st, o, outs, lost) && o.rc == NOMATCH
    ensures lost && Kept(md, hi, open, st, o.st)
  {
  }

  lemma {:induction false} WNode(md: Md, hi: nat, st: State, f: Frame, k: Cont, r: Res)
    requires Poised(md, hi, st, f, k, r) && k.In? && k.ns.Cons?
    ensures Fate(md, hi, OpenCaps(k), st, Run(md, st, f), Outs(md.c, md.mstart, k, [r]), Lost(md, k, r.pos, f.chain))
    decreases md.limit - st.count, 1, |md.code| - f.pc, 8
  {
    hide *;
    NoOnce(md, hi, st, f, k, r);
    match k.ns.n
    case Zero(op) => WZero(md, hi, st, f, op, k, r);
    case One(x) =>
      OneAt(md, hi, st, f, k, r, x);
      WRepeat(md, hi, st, f, k, r, Repeat(x, 1, 1, false, false, f.pc + |EncOne(x)|));
    case Rep(x, kd) =>
      RepAt(md, hi, st, f, k, r, x, kd);
      WRepeat(md, hi, st, f, k, r, Repeat(x, kd.Min(), kd.Max(), kd.M() == Lazy, kd.M() == Possessive, f.pc + |EncRep(x, kd)|));
    case Grp(z, g) => WPrefixed(md, hi, st, f, z, g, k, r);
  }

  lemma NoOnce(md: Md, hi: nat, st: State, f: Frame, k: Cont, r: Res)
    requires Poised(md, hi, st, f, k, r) && k.In? && k.ns.Cons?
    ensures !k.ns.n.Once?
  {
    LiveFacts(md, st, f, k);
    OpenNode(md.c, k, f.eptr);
  }

  lemma {:induction false} WZero(md: Md, hi: nat, st: State, f: Frame, op: Byte, k: Cont, r: Res)
    requires Poised(md, hi, st, f, k, r) && k.In? && k.ns.Cons? && k.ns.n == Zero(op)
    ensures Fate(md, hi, OpenCaps(k), st, Run(md, st, f), Outs(md.c, md.mstart, k, [r]), Lost(md, k, r.pos, f.chain))
    decreases md.limit - st.count, 1, |md.code| - f.pc, 7
  {
    hide Run, Outs, KAt, Sound, Agree, Numbered, Fate, Lost, Open, Has, ZeroOk;
    var k2 := k.(ns := k.ns.rest);
    LiveFacts(md, st, f, k);
    OpenNode(md.c, k, f.eptr);
    KAtStep(md.code, f.pc, k);
    OutsStep(md.c, md.mstart, k, r);
    RunZero(md, st, f, op);
    if ZeroOk(md.c, op, f.eptr) {
      SoundStep(md.c, k, f.eptr, f.chain, f.eptr);
      HeldStep(md, hi, st, f, k, r);
      WRun(md, hi, st, f.(pc := f.pc + 1), k2, r);
      if Lost(md, k2, r.pos, f.chain) { LostStep(md, k, r.pos, f.chain, [r.pos]); }
      FateWiden(md, hi, OpenCaps(k), st, Run(md, st, f), Outs(md.c, md.mstart, k2, [r]), Lost(md, k2, r.pos, f.chain),
                Outs(md.c, md.mstart, k, [r]), Lost(md, k, r.pos, f.chain));
    } else {
      LostStep(md, k, r.pos, f.chain, []);
      FateNone(md, hi, OpenCaps(k), st, Outs(md.c, md.mstart, k, [r]), Lost(md, k, r.pos, f.chain));
    }
  }

  // ---------- repeated single items ----------

  ghost predicate LostAll(md: Md, k: Cont, ps: seq<nat>, chain: seq<nat>) {
    forall i :: 0 <= i < |ps| ==> Lost(md, k, ps[i], chain)
  }

  /** The repeat d is the first item of k. */
  ghost predicate RepeatAt(md: Md, f: Frame, k: Cont, r: Res, d: Repeat) {
    k.In? && k.ns.Cons? && r.pos <= |md.c.s| && (k.ns.n == One(d.x) || (k.ns.n.Rep? && k.ns.n.k.Min() == d.min)) &&
    IsRepeatOp(At(md.code, f.pc)) && DecodeRepeat(md, f.pc) == d && KAt(md.code, d.next, k.(ns := k.ns.rest)) &&
    (d.max < 0 || d.min <= d.max) && (d.lazy ==> !d.poss) && (k.ns.n.One? ==> d.min == d.max == 1) &&
    AllNode(md.c, k.ns.n, r) == AtAll(r, ItemRuns(md.c, d, r.pos)) &&
    AllNode(md.c, k.ns.n, At0(r.pos)) == AtAll(At0(r.pos), ItemRuns(md.c, d, r.pos))
  }

  lemma OneAt(md: Md, hi: nat, st: State, f: Frame, k: Cont, r: Res, x: Single)
    requires Poised(md, hi, st, f, k, r) && k.In? && k.ns.Cons? && k.ns.n == One(x)
    ensures RepeatAt(md, f, k, r, Repeat(x, 1, 1, false, false, f.pc + |EncOne(x)|))
  {
    hide KAt, Sound, Agree, Numbered, Open, Has, ItemRuns, AllNode, DecodeRepeat, EncOne, IsRepeatOp, ValidSingle, ValidNodes;
    var k2 := k.(ns := k.ns.rest);
    LiveFacts(md, st, f, k);
    OpenNode(md.c, k, f.eptr);
    KAtStep(md.code, f.pc, k);
    assert EncNode(k.ns.n) == EncOne(x) && ValidSingle(x, md.c.nocase);
    NextByte(md, f.pc + |EncOne(x)|, k2);
    DecodeOne(md, f.pc, x);
    OneRuns(md.c, x, r, f.pc + |EncOne(x)|);
    OneRuns(md.c, x, At0(r.pos), f.pc + |EncOne(x)|);
  }

  lemma RepAt(md: Md, hi: nat, st: State, f: Frame, k: Cont, r: Res, x: Single, kd: Kind)
    requires Poised(md, hi, st, f, k, r) && k.In? && k.ns.Cons? && k.ns.n == Rep(x, kd)
    ensures RepeatAt(md, f, k, r, Repeat(x, kd.Min(), kd.Max(), kd.M() == Lazy, kd.M() == Possessive, f.pc + |EncRep(x, kd)|))
  {
    hide KAt, Sound, Agree, Numbered, Open, Has, ItemRuns, AllNode, DecodeRepeat, EncRep, IsRepeatOp, ValidSingle, ValidNodes;
    LiveFacts(md, st, f, k);
    OpenNode(md.c, k, f.eptr);
    KAtStep(md.code, f.pc, k);
    assert EncNode(k.ns.n) == EncRep(x, kd) && ValidSingle(x, md.c.nocase) && ValidKind(x, kd);
    DecodeRep(md, f.pc, x, kd);
    RepRuns(md.c, x, kd, r, f.pc + |EncRep(x, kd)|);
    RepRuns(md.c, x, kd, At0(r.pos), f.pc + |EncRep(x, kd)|);
  }

  lemma AtAllHas(p: nat, ps: seq<nat>, q: nat)
    requires At0(q) in AtAll(At0(p), ps)
    ensures q in ps
  {
    var i :| 0 <= i < |ps| && AtAll(At0(p), ps)[i] == At0(q);
    assert ps[i] == q;
  }

  lemma {:induction false} WRepeat(md: Md, hi: nat, st: State, f: Frame, k: Cont, r: Res, d: Repeat)
    requires Poised(md, hi, st, f, k, r) && RepeatAt(md, f, k, r, d)
    ensures Fate(md, hi, OpenCaps(k), st, Run(md, st, f), Outs(md.c, md.mstart, k, [r]), Lost(md, k, r.pos, f.chain))
    decreases md.limit - st.count, 1, |md.code| - f.pc, 7
  {
    hide Run, RunRepeat, Outs, KAt, Sound, Agree, Numbered, Fate, Lost, Open, Has, ItemRuns, AllNode, DecodeRepeat, IsRepeatOp, MinOk, Taken, AtAll, Runs, Under;
    var k2, ps := k.(ns := k.ns.rest), ItemRuns(md.c, d, r.pos);
    LiveFacts(md, st, f, k);
    OutsStep(md.c, md.mstart, k, r);
    RunIsRepeat(md, st, f, d);
    RunsOf(md.c, d, r.pos);
    forall q: nat | At0(q) in AllNode(md.c, k.ns.n, At0(r.pos)) ensures q in ps { AtAllHas(r.pos, ps, q); }
    if !MinOk(md.c, d.x, r.pos, d.min) {
      RepeatFails(md, st, f, d);
      LostStep(md, k, r.pos, f.chain, ps);
      FateNone(md, hi, OpenCaps(k), st, Outs(md.c, md.mstart, k, [r]), Lost(md, k, r.pos, f.chain));
    } else {
      var first: nat := r.pos + d.min;
      MinEnds(md.c, d.x, r.pos, d.min);
      SoundStep(md.c, k, f.eptr, f.chain, first);
      HeldStep(md, hi, st, f, k, r);
      WTaken(md, hi, st, f, k2, r, d, first);
      if LostAll(md, k2, ps, f.chain) { LostStep(md, k, r.pos, f.chain, ps); }
      FateWiden(md, hi, OpenCaps(k), st, Run(md, st, f), Outs(md.c, md.mstart, k2, AtAll(r, ps)), LostAll(md, k2, ps, f.chain),
                Outs(md.c, md.mstart, k, [r]), Lost(md, k, r.pos, f.chain));
    }
  }

  lemma RunsOf(c: Ctx, d: Repeat, p: nat)
    requires p <= |c.s| && (d.max < 0 || d.min <= d.max)
    ensures if MinOk(c, d.x, p, d.min) then p + d.min <= |c.s| && ItemRuns(c, d, p) == Taken(c, d, p + d.min) else ItemRuns(c, d, p) == []
  {
    RunsMin(c, d.x, d.min, d.max, d.lazy, p);
    hide Runs;
  }

  /** Further along, the invariant still holds. */
  lemma PoisedUp(md: Md, hi: nat, st: State, f: Frame, k: Cont, r: Res, p: nat)
    requires Poised(md, hi, st, f, k, r) && f.eptr <= p <= |md.c.s|
    ensures Poised(md, hi, st, f.(eptr := p), k, r.(pos := p))
  {
    hide KAt, Sound, Agree, Numbered;
    SoundUp(md.c, k, f.eptr, f.chain, false, p, false);
  }

  lemma {:induction false} WTaken(md: Md, hi: nat, st: State, f: Frame, k2: Cont, r: Res, d: Repeat, first: nat)
    requires Poised(md, hi, st, f.(eptr := first, pc := d.next), k2, r.(pos := first)) && Wf(md, st, f)
    requires f.pc < |md.code| && f.pc < d.next && (d.max < 0 || d.min <= d.max) && (d.lazy ==> !d.poss)
    requires MinOk(md.c, d.x, f.eptr, d.min) && first == f.eptr + d.min && first <= |md.c.s|
    ensures Lo(k2) <= |md.c.s| && Good(md.c, Lo(k2), AtAll(r, Taken(md.c, d, first)))
    ensures Fate(md, hi, OpenCaps(k2), st, RunRepeat(md, st, f, d), Outs(md.c, md.mstart, k2, AtAll(r, Taken(md.c, d, first))),
                 LostAll(md, k2, Taken(md.c, d, first), f.chain))
    decreases md.limit - st.count, 1, |md.code| - f.pc, 6
  {
    hide Run, Outs, KAt, Sound, Agree, Numbered, Fate, Lost, Runs, WalkBack, Lazily, Longest, MinOk, AtAll, Live, Held, LostAll;
    var m, g := if d.max < 0 then -1 else d.max - d.min, f.(eptr := first, pc := d.next);
    RunTaken(md, st, f, d, first);
    hide RunRepeat;
    if d.max < 0 { RunsMinus(md.c, d.x, d.max, -1, first); }
    if d.min == d.max {
      RunsNone(md.c, d.x, d.lazy, first);
      assert Taken(md.c, d, first) == [first];
      hide Taken;
      WAt(md, hi, st, g, k2, r, first, [first]);
    } else if d.lazy {
      assert Taken(md.c, d, first) == Runs(md.c, d.x, 0, m, true, first);
      hide Taken;
      WLazily(md, hi, st, g, k2, r, d, d.min);
    } else {
      RunsDown(md.c, d.x, m, first);
      var last := Longest(md.c, d.x, first, m);
      assert Taken(md.c, d, first) == if d.poss then [last] else Down(last, first);
      hide Taken, Down;
      if d.poss {
        PoisedUp(md, hi, st, g, k2, r.(pos := first), last);
        WAt(md, hi, st, g.(eptr := last), k2, r, last, [last]);
      } else {
        WWalk(md, hi, st, g.(eptr := last), k2, r, first);
      }
    }
  }

  lemma {:induction false} WAt(md: Md, hi: nat, st: State, f: Frame, k2: Cont, r: Res, p: nat, ps: seq<nat>)
    requires ps == [p] && f.eptr == p && Poised(md, hi, st, f, k2, r.(pos := p))
    ensures Good(md.c, Lo(k2), AtAll(r, ps))
    ensures Fate(md, hi, OpenCaps(k2), st, Run(md, st, f), Outs(md.c, md.mstart, k2, AtAll(r, ps)), LostAll(md, k2, ps, f.chain))
    decreases md.limit - st.count, 1, |md.code| - f.pc, 10
  {
    hide Run, Outs, KAt, Sound, Agree, Numbered, Fate, Lost, Held;
    assert AtAll(r, ps) == [r.(pos := p)];
    WRun(md, hi, st, f, k2, r.(pos := p));
    FateWiden(md, hi, OpenCaps(k2), st, Run(md, st, f), Outs(md.c, md.mstart, k2, AtAll(r, ps)), Lost(md, k2, p, f.chain),
              Outs(md.c, md.mstart, k2, AtAll(r, ps)), LostAll(md, k2, ps, f.chain));
  }

  /** The first of a list of positions, and the others. */
  lemma SplitOuts(c: Ctx, ms: nat, k: Cont, r: Res, p: nat, ps: seq<nat>)
    requires Lo(k) <= p <= |c.s| && forall i :: 0 <= i < |ps| ==> Lo(k) <= ps[i] <= |c.s|
    ensures Good(c, Lo(k), AtAll(r, [p] + ps)) && Good(c, Lo(k), [r.(pos := p)]) && Good(c, Lo(k), AtAll(r, ps))
    ensures Outs(c, ms, k, AtAll(r, [p] + ps)) == Outs(c, ms, k, [r.(pos := p)]) + Outs(c, ms, k, AtAll(r, ps))
  {
    hide Outs;
    SplitFirst(c, ms, k, r, p, ps);
  }

  lemma LostCons(md: Md, k: Cont, p: nat, ps: seq<nat>, chain: seq<nat>)
    requires Lost(md, k, p, chain) && LostAll(md, k, ps, chain)
    ensures LostAll(md, k, [p] + ps, chain)
  {
    hide Lost;
  }

  lemma {:induction false} WWalk(md: Md, hi: nat, st: State, f: Frame, k2: Cont, r: Res, pp: nat)
    requires Poised(md, hi, st, f.(eptr := pp), k2, r.(pos := pp)) && pp <= f.eptr <= |md.c.s|
    ensures Good(md.c, Lo(k2), AtAll(r, Down(f.eptr, pp)))
    ensures Fate(md, hi, OpenCaps(k2), st, WalkBack(md, st, f, pp), Outs(md.c, md.mstart, k2, AtAll(r, Down(f.eptr, pp))),
                 LostAll(md, k2, Down(f.eptr, pp), f.chain))
    decreases md.limit - st.count, 1, |md.code| - f.pc, 10, f.eptr
  {
    hide Run, Call, Deeper, Outs, KAt, Sound, Agree, Numbered, Fate, Lost, LostAll, WalkBack, Held, AtAll, Kept;
    var e, rest, whole := f.eptr, Down(f.eptr - 1, pp), Down(f.eptr, pp);
    WalkStep(md, st, f, pp);
    SplitOuts(md.c, md.mstart, k2, r, e, rest);
    PoisedUp(md, hi, st, f.(eptr := pp), k2, r.(pos := pp), e);
    WDeeper(md, hi, st, f, false, k2, r.(pos := e));
    var o, open := Deeper(md, st, f, false), OpenCaps(k2);
    var a, b := Outs(md.c, md.mstart, k2, [r.(pos := e)]), Outs(md.c, md.mstart, k2, AtAll(r, rest));
    var la, lb, lost := Lost(md, k2, e, f.chain), LostAll(md, k2, rest, f.chain), LostAll(md, k2, whole, f.chain);
    if la && lb { LostCons(md, k2, e, rest, f.chain); }
    if o.rc == NOMATCH {
      FateKept(md, hi, open, st, o, a, la);
      if e == pp {
        NoneLeft(md, k2, f.chain);
        KeptLen(md, hi, open, st, o.st);
        FateNone(md, hi, open, o.st, b, lb);
      } else {
        PoisedAfter(md, hi, st, o.st, f.(eptr := pp), k2, r.(pos := pp));
        WWalk(md, hi, o.st, f.(eptr := e - 1), k2, r, pp);
      }
    }
    FateOr(md, hi, open, st, o, WalkBack(md, st, f, pp), a, la, b, lb, a + b, lost);
  }

  lemma NoneLeft(md: Md, k: Cont, chain: seq<nat>)
    ensures LostAll(md, k, [], chain)
  {
  }

  lemma {:induction false} WLazily(md: Md, hi: nat, st: State, f: Frame, k2: Cont, r: Res, d: Repeat, fi: nat)
    requires Poised(md, hi, st, f, k2, r.(pos := f.eptr)) && (d.max < 0 || fi <= d.max)
    ensures var ps := Runs(md.c, d.x, 0, if d.max < 0 then -1 else d.max - fi, true, f.eptr);
      Good(md.c, Lo(k2), AtAll(r, ps)) &&
      Fate(md, hi, OpenCaps(k2), st, Lazily(md, st, f, d, fi), Outs(md.c, md.mstart, k2, AtAll(r, ps)), LostAll(md, k2, ps, f.chain))
    decreases md.limit - st.count, 1, |md.code| - f.pc, 10, |md.c.s| - f.eptr
  {
    hide Run, Call, Deeper, Outs, KAt, Sound, Agree, Numbered, Fate, Lost, LostAll, Held, AtAll, Kept, Accepts, Live, Runs, Lazily;
    var e: nat, m := f.eptr, if d.max < 0 then -1 else d.max - fi;
    var more := m != 0 && AcceptsAt(md.c, d.x, e);
    var rest := if more then Runs(md.c, d.x, 0, if m < 0 then m else m - 1, true, e + 1) else [];
    LazyRuns(md.c, d.x, m, e);
    var whole := Runs(md.c, d.x, 0, m, true, e);
    PoisedWf(md, hi, st, f, k2, r.(pos := e));
    LazyStep(md, st, f, d, fi);
    SplitOuts(md.c, md.mstart, k2, r, e, rest);
    WDeeper(md, hi, st, f, false, k2, r.(pos := e));
    var o, open := Deeper(md, st, f, false), OpenCaps(k2);
    var a, b := Outs(md.c, md.mstart, k2, [r.(pos := e)]), Outs(md.c, md.mstart, k2, AtAll(r, rest));
    var la, lb, lost := Lost(md, k2, e, f.chain), LostAll(md, k2, rest, f.chain), LostAll(md, k2, whole, f.chain);
    if la && lb { LostCons(md, k2, e, rest, f.chain); }
    if o.rc == NOMATCH {
      FateKept(md, hi, open, st, o, a, la);
      if more {
        PoisedAfter(md, hi, st, o.st, f, k2, r.(pos := e));
        PoisedUp(md, hi, o.st, f, k2, r.(pos := e), e + 1);
        WLazily(md, hi, o.st, f.(eptr := e + 1), k2, r, d, fi + 1);
      } else {
        NoneLeft(md, k2, f.chain);
        KeptLen(md, hi, open, st, o.st);
        FateNone(md, hi, open, o.st, b, lb);
      }
    }
    FateOr(md, hi, open, st, o, Lazily(md, st, f, d, fi), a, la, b, lb, a + b, lost);
  }

  lemma PoisedWf(md: Md, hi: nat, st: State, f: Frame, k: Cont, r: Res)
    requires Poised(md, hi, st, f, k, r)
    ensures Wf(md, st, f) && MdOk(md)
  {
  }

  // ---------- brackets ----------

  /** If nothing is left in the bracket that is the first item, or behind it where it
      may be passed over, nothing is left. */
  lemma LostPrefixed(md: Md, z: Prefix, g: Group, k: Cont, p: nat, chain: seq<nat>)
    requires k.In? && k.ns.Cons? && k.ns.n == Grp(z, g) && p <= |md.c.s| && Under(chain, p)
    requires z != SkipZero ==> LostGroup(md, g, k.(ns := k.ns.rest), p, chain)
    requires z != NoPrefix ==> Lost(md, k.(ns := k.ns.rest), p, chain)
    ensures Lost(md, k, p, chain)
  {
    hide Left, AllGroup, Under;
    forall e: nat | Left(md.c, k, p, chain, e) ensures Rejected(md, e) {
      var q := LeftStep(md.c, k, p, chain, e);
      if At0(q) in AllGroup(md.c, g, At0(p)) && z != SkipZero {
        assert Enter(md.c, g, k.(ns := k.ns.rest), p, chain, e);
      } else {
        assert q == p && z != NoPrefix;
      }
    }
  }

  lemma {:induction false} WPrefixed(md: Md, hi: nat, st: State, f: Frame, z: Prefix, g: Group, k: Cont, r: Res)
    requires Poised(md, hi, st, f, k, r) && k.In? && k.ns.Cons? && k.ns.n == Grp(z, g)
    ensures Fate(md, hi, OpenCaps(k), st, Run(md, st, f), Outs(md.c, md.mstart, k, [r]), Lost(md, k, r.pos, f.chain))
    decreases md.limit - st.count, 1, |md.code| - f.pc, 7
  {
    hide Run, Call, Deeper, CapAlts, BraAlts, AfterClose, Outs, AllGroup, WaysOuts, AltOuts, KetOuts, KAt, Sound, Agree, Numbered, Fate, Kept, OneOf, Lost, LostGroup, LostBranches,
         LostKet, Live, LiveGroup, LiveBranch, Poised, PoisedGroup, PoisedBranch, Closing, Has, EncNode, EncGroup, Span, BranchAt, FormedGroup, Restore, At, Get, OpenLen, OpenCaps,
         Started, Close, Closed, KetTop, Room, Pushed;
    var k2, p, open := k.(ns := k.ns.rest), r.pos, OpenCaps(k);
    var inside, after := f.(pc := f.pc + 1), f.(pc := f.pc + 1 + Span(g) + 3);
    PrefixedReady(md, hi, st, f, z, g, k, r);
    var outs, lost := Outs(md.c, md.mstart, k, [r]), Lost(md, k, p, f.chain);
    var a, la := Outs(md.c, md.mstart, k2, AllGroup(md.c, g, r)), LostGroup(md, g, k2, p, f.chain);
    var b, lb := Outs(md.c, md.mstart, k2, [r]), Lost(md, k2, p, f.chain);
    if (z.SkipZero? || la) && (z.NoPrefix? || lb) { LostPrefixed(md, z, g, k, p, f.chain); }
    if z.NoPrefix? {
      WGroup(md, hi, st, f, g, k2, r);
      FateWiden(md, hi, open, st, Run(md, st, f), a, la, outs, lost);
    } else {
      RunPrefix(md, st, f, z, g);
      if z.BraZero? {
        WGroupCall(md, hi, st, inside.(rdepth := f.rdepth + 1), false, g, k2, r);
        var o := Deeper(md, st, inside, false);
        DeeperIs(md, st, inside, false);
        PushedNot(inside.(rdepth := f.rdepth + 1));
        if o.rc == NOMATCH {
          FateKept(md, hi, open, st, o, a, la);
          PoisedAfter(md, hi, st, o.st, after, k2, r);
          WRun(md, hi, o.st, after, k2, r);
        }
        FateOr(md, hi, open, st, o, Run(md, st, f), a, la, b, lb, outs, lost);
      } else if z.BraMinZero? {
        PushedNot(after);
        WDeeper(md, hi, st, after, false, k2, r);
        var o := Deeper(md, st, after, false);
        if o.rc == NOMATCH {
          FateKept(md, hi, open, st, o, b, lb);
          PoisedGroupAfter(md, hi, st, o.st, inside, g, k2, r);
          WGroup(md, hi, o.st, inside, g, k2, r);
        }
        FateOr(md, hi, open, st, o, Run(md, st, f), b, lb, a, la, outs, lost);
      } else {
        WRun(md, hi, st, after, k2, r);
        FateWiden(md, hi, open, st, Run(md, st, f), b, lb, outs, lost);
      }
    }
  }

  lemma PushedNot(f: Frame)
    ensures Pushed(f, false) == f
  {
  }

  lemma DeeperIs(md: Md, st: State, f: Frame, cbe: bool)
    requires Wf(md, st, f)
    ensures Deeper(md, st, f, cbe) == Call(md, st, f.(rdepth := f.rdepth + 1), cbe)
  {
    hide Call;
  }

  /** The invariant inside and behind a bracket that is the first item. */
  lemma PrefixedReady(md: Md, hi: nat, st: State, f: Frame, z: Prefix, g: Group, k: Cont, r: Res)
    requires Poised(md, hi, st, f, k, r) && k.In? && k.ns.Cons? && k.ns.n == Grp(z, g)
    ensures var k2, inside, after := k.(ns := k.ns.rest), f.(pc := f.pc + 1), f.(pc := f.pc + 1 + Span(g) + 3);
      && OpenCaps(k2) == OpenCaps(k) && f.eptr == r.pos && Under(f.chain, r.pos) && Wf(md, st, f) && MdOk(md)
      && Lo(k2) == Lo(k) <= r.pos <= |md.c.s|
      && Has(md.code, f.pc, EncNode(Grp(z, g))) && f.pc < |md.code|
      && PoisedGroup(md, hi, st, if z.NoPrefix? then f else inside.(rdepth := f.rdepth + if z.BraZero? then 1 else 0), g, k2, r)
      && PoisedGroup(md, hi, st, if z.NoPrefix? then f else inside, g, k2, r)
      && (!z.NoPrefix? ==> Poised(md, hi, st, after, k2, r))
    ensures PrefixedOuts(md, z, g, k, r)
  {
    hide Outs, KAt, Sound, Agree, Numbered, Open, Has, EncGroup, AllGroup, Span, SureGroup, GuardedGroup, ValidGroup, FormedGroup, Forward, Starts, At, PrefixedOuts;
    LiveFacts(md, st, f, k);
    OpenNode(md.c, k, f.eptr);
    KAtStep(md.code, f.pc, k);
    HeldStep(md, hi, st, f, k, r);
    OutsOfPrefixed(md, z, g, k, r);
    SoundGroup(md.c, k, f.eptr, f.chain);
    if z.NoPrefix? {
      assert EncNode(Grp(z, g)) == EncGroup(g);
    } else {
      PrefixAt(md.code, f.pc, z, g);
      assert EncNode(Grp(z, g)) == EncPrefix(z) + EncGroup(g);
      SoundStep(md.c, k, f.eptr, f.chain, f.eptr);
    }
  }

  /** The results of a bracket that is the first item, by its prefix. */
  ghost predicate PrefixedOuts(md: Md, z: Prefix, g: Group, k: Cont, r: Res) {
    k.In? && k.ns.Cons? && Lo(k) <= r.pos <= |md.c.s| &&
    var k2 := k.(ns := k.ns.rest);
    && Good(md.c, Lo(k2), AllGroup(md.c, g, r)) && Good(md.c, Lo(k2), [r]) && Good(md.c, Lo(k), [r])
    && Outs(md.c, md.mstart, k, [r]) ==
         var a, b := Outs(md.c, md.mstart, k2, AllGroup(md.c, g, r)), Outs(md.c, md.mstart, k2, [r]);
         match z case NoPrefix => a case BraZero => a + b case BraMinZero => b + a case SkipZero => b
  }

  lemma OutsOfPrefixed(md: Md, z: Prefix, g: Group, k: Cont, r: Res)
    requires k.In? && k.ns.Cons? && k.ns.n == Grp(z, g) && k.start <= r.pos <= |md.c.s|
    ensures PrefixedOuts(md, z, g, k, r)
  {
    hide Outs, AllGroup;
    var k2, a := k.(ns := k.ns.rest), AllGroup(md.c, g, r);
    OutsStep(md.c, md.mstart, k, r);
    OutsAppend(md.c, md.mstart, k2, a, [r]);
    OutsAppend(md.c, md.mstart, k2, [r], a);
  }

  lemma PoisedGroupAfter(md: Md, hi: nat, st: State, st': State, f: Frame, g: Group, k: Cont, r: Res)
    requires PoisedGroup(md, hi, st, f, g, k, r) && Kept(md, hi, OpenCaps(k), st, st') && st'.count <= md.limit
    ensures PoisedGroup(md, hi, st', f, g, k, r)
  {
    hide KAt, Sound, Same, Agree, Numbered, Has, EncGroup, SureGroup, GuardedGroup, ValidGroup, FormedGroup;
    AgreeSame(md, k, st.vec, st'.vec, r.vec);
    KeptLen(md, hi, OpenCaps(k), st, st');
  }

  lemma {:induction false} WGroupCall(md: Md, hi: nat, st: State, f: Frame, cbe: bool, g: Group, k2: Cont, r: Res)
    requires PoisedGroup(md, hi, st, f, g, k2, r)
    ensures Fate(md, hi, OpenCaps(k2), st, Call(md, st, f, cbe), Outs(md.c, md.mstart, k2, AllGroup(md.c, g, r)),
                 LostGroup(md, g, k2, r.pos, Pushed(f, cbe).chain))
    decreases md.limit - st.count, 0, 0
  {
    hide Run, Outs, KAt, Sound, Agree, Numbered, OneOf, LostGroup, Same, Has, EncGroup, SureGroup, GuardedGroup, ValidGroup, FormedGroup, AllGroup;
    if st.count < md.limit && f.rdepth < md.rlimit {
      if cbe { SoundPush(md.c, k2, f.eptr, f.chain, SureGroup(g)); }
      WGroup(md, hi, st.(count := st.count + 1), Pushed(f, cbe), g, k2, r);
    }
  }

  ghost predicate PoisedBranch(md: Md, hi: nat, st: State, f: Frame, b: Nodes, more: Alts, g: Group, gpc: nat, k2: Cont, r: Res) {
    var inner := if g.cap == 0 then Inmost(k2) else g.cap;
    LiveBranch(md, st, f, b, more, g, gpc, k2) && f.eptr == r.pos && f.top == r.top && Lo(k2) <= r.pos <= |md.c.s| &&
    Agree(md, In(b, g, gpc, r.pos, k2), st.vec, r.vec) && Numbered(k2, hi) &&
    FormedGroup(g, Inmost(k2), hi) && Formed(b, inner, hi) && FormedAlts(more, inner, hi)
  }

  lemma {:induction false} WGroup(md: Md, hi: nat, st: State, f: Frame, g: Group, k2: Cont, r: Res)
    requires PoisedGroup(md, hi, st, f, g, k2, r)
    ensures Fate(md, hi, OpenCaps(k2), st, Run(md, st, f), Outs(md.c, md.mstart, k2, AllGroup(md.c, g, r)),
                 LostGroup(md, g, k2, r.pos, f.chain))
    decreases md.limit - st.count, 1, |md.code| - f.pc, 6
  {
    hide Run, Call, Deeper, CapAlts, BraAlts, AfterClose, Outs, AllGroup, WaysOuts, AltOuts, KetOuts, KAt, Sound, Agree, Numbered, Fate, Kept, OneOf, Lost, LostGroup, LostBranches,
         LostKet, Live, LiveGroup, LiveBranch, Poised, PoisedGroup, PoisedBranch, Closing, Has, EncNode, EncGroup, Span, BranchAt, FormedGroup, Restore, At, Get, OpenLen, OpenCaps,
         Started, Close, Closed, KetTop, Room, Pushed;
    var p, kb := r.pos, In(g.b, g, f.pc, r.pos, k2);
    GroupFacts(md, hi, st, f, g, k2, r);
    var st1 := Started(md, st, g, p);
    RunIsBra(md, st, f, g);
    WaysOfGroup(md, g, k2, r);
    var outs, la, lost := WaysOuts(md, g.b, g.more, g, k2, r), LostBranches(md, g.b, g.more, g, k2, p, f.chain), LostGroup(md, g, k2, p, f.chain);
    if la { LostEnter(md, g, k2, p, f.chain); }
    if Room(md, g) {
      WCapAlts(md, hi, st1, f, g.b, g.more, g, f.pc, k2, r);
      FateRestored(md, hi, st, g, f.pc, k2, r, CapAlts(md, st1, f, g.s), outs, la, lost);
    } else {
      WBraAlts(md, hi, st1, f, g.b, g.more, g, f.pc, k2, r);
      FateNoRoom(md, hi, st, g, f.pc, k2, r, BraAlts(md, st1, f, g.s), outs, la, lost);
    }
  }

  lemma GroupFacts(md: Md, hi: nat, st: State, f: Frame, g: Group, k2: Cont, r: Res)
    requires PoisedGroup(md, hi, st, f, g, k2, r)
    ensures MdOk(md) && Wf(md, st, f) && Has(md.code, f.pc, EncGroup(g)) && g.cap < 0x1_0000 && f.pc < |md.code|
    ensures f.eptr == r.pos && |st.vec| == md.offsetEnd && md.offsetEnd % 3 == 0 && g.cap !in OpenCaps(k2) && Lo(k2) <= r.pos <= |md.c.s|
    ensures PoisedBranch(md, hi, Started(md, st, g, r.pos), f, g.b, g.more, g, f.pc, k2, r)
    ensures Started(md, st, g, r.pos).count == st.count && (!Room(md, g) ==> Started(md, st, g, r.pos) == st) && Wf(md, Started(md, st, g, r.pos), f) && Good(md.c, Lo(k2), AllGroup(md.c, g, r))
  {
    hide KAt, Sound, Agree, Numbered, Has, EncGroup, SureGroup, GuardedGroup, BranchAt, BranchesOk, AllGroup, CapsGroup, Formed, FormedAlts, ValidNodes, ValidAlts;
    GroupApart(g, k2, hi);
    GroupCode(md, f.pc, g);
    GroupSplit(md.c, g);
    AgreeStart(md, st, g, f.pc, k2, r);
  }

  lemma WaysOfGroup(md: Md, g: Group, k2: Cont, r: Res)
    requires Lo(k2) <= r.pos <= |md.c.s|
    ensures Outs(md.c, md.mstart, k2, AllGroup(md.c, g, r)) == WaysOuts(md, g.b, g.more, g, k2, r)
  {
    hide Outs, AllNodes, AllAlts, AfterKet;
  }

  lemma LostEnter(md: Md, g: Group, k: Cont, p: nat, chain: seq<nat>)
    requires LostBranches(md, g.b, g.more, g, k, p, chain)
    ensures LostGroup(md, g, k, p, chain)
  {
    hide Through, Enter;
    forall e: nat | Enter(md.c, g, k, p, chain, e) ensures Rejected(md, e) { EnterThrough(md.c, g, k, p, chain, e); }
  }

  /** Outside the bracket: its slots have been restored, */
  lemma FateRestored(md: Md, hi: nat, st: State, g: Group, gpc: nat, k2: Cont, r: Res, o: Out, outs: seq<Res>, la: bool, lost: bool)
    requires MdOk(md) && |st.vec| == md.offsetEnd && Room(md, g) && g.cap !in OpenCaps(k2) && |o.st.vec| == md.offsetEnd
    requires Fate(md, hi, OpenCaps(In(g.b, g, gpc, r.pos, k2)), Started(md, st, g, r.pos), o, outs, la) && (la ==> lost)
    ensures Fate(md, hi, OpenCaps(k2), st,
                 if o.rc != NOMATCH then o else Out(NOMATCH, o.st.(vec := Restore(o.st.vec, st.vec, g.cap, md.offsetEnd))), outs, lost)
  {
    RestoreOk(md, st, g, gpc, k2, r, o);
    hide Restore, Same, OneOf;
  }

  /** or it had none. */
  lemma FateNoRoom(md: Md, hi: nat, st: State, g: Group, gpc: nat, k2: Cont, r: Res, o: Out, outs: seq<Res>, la: bool, lost: bool)
    requires !Room(md, g) && Fate(md, hi, OpenCaps(In(g.b, g, gpc, r.pos, k2)), st, o, outs, la) && (la ==> lost)
    ensures Fate(md, hi, OpenCaps(k2), st, o, outs, lost)
  {
    hide Same, OneOf;
    if Same(md, OpenCaps(In(g.b, g, gpc, r.pos, k2)), st.vec, o.st.vec) { NoRoom(md, g, gpc, r.pos, k2, st.vec, o.st.vec); }
  }

  lemma BranchPoised(md: Md, hi: nat, st: State, f: Frame, b: Nodes, more: Alts, g: Group, gpc: nat, k2: Cont, r: Res)
    requires PoisedBranch(md, hi, st, f, b, more, g, gpc, k2, r)
    ensures Poised(md, hi, st, Pushed(f.(pc := f.pc + OpenLen(At(md.code, f.pc))), g.s), In(b, g, gpc, r.pos, k2), r)
    ensures MdOk(md) && Wf(md, st, f) && f.pc < |md.code| && BranchAt(md.code, f.pc, b, more, g, gpc) && f.eptr == r.pos
    ensures Lo(k2) <= r.pos <= |md.c.s|
  {
    hide KAt, Sound, Agree, BranchAt, ValidGroup, GuardedGroup, BranchesOk, Formed, FormedGroup, FormedAlts, OpenLen, SureGroup;
    BranchLive(md, st, f, b, more, g, gpc, k2);
  }

  /** The next branch of the bracket. */
  lemma PoisedNext(md: Md, hi: nat, st: State, st': State, f: Frame, b: Nodes, more: Alts, g: Group, gpc: nat, k2: Cont, r: Res)
    requires PoisedBranch(md, hi, st, f, b, more, g, gpc, k2, r) && more.Alt? && st'.count <= md.limit
    requires Kept(md, hi, OpenCaps(In(b, g, gpc, r.pos, k2)), st, st')
    ensures var next := f.pc + Get(md.code, f.pc + 1);
      f.pc < next && At(md.code, next) == OP_ALT &&
      PoisedBranch(md, hi, st', f.(pc := next), more.b, more.more, g, gpc, k2, r)
    ensures OpenCaps(In(b, g, gpc, r.pos, k2)) == OpenCaps(In(more.b, g, gpc, r.pos, k2))
  {
    hide KAt, Sound, Agree, BranchAt, ValidGroup, GuardedGroup, BranchesOk, FormedGroup, Get, Same, SureGroup, Formed;
    NextCode(md, f.pc, b, more, g, gpc);
    NextBranch(md.c, b, more, g);
    AgreeSame(md, In(b, g, gpc, r.pos, k2), st.vec, st'.vec, r.vec);
    AgreeBranch(md, b, more.b, g, gpc, k2, r, st'.vec);
    KeptLen(md, hi, OpenCaps(In(b, g, gpc, r.pos, k2)), st, st');
  }

  lemma AgreeBranch(md: Md, b: Nodes, b': Nodes, g: Group, gpc: nat, k2: Cont, r: Res, vec: seq<int>)
    requires Agree(md, In(b, g, gpc, r.pos, k2), vec, r.vec)
    ensures Agree(md, In(b', g, gpc, r.pos, k2), vec, r.vec)
  {
  }

  lemma SplitWays(md: Md, b: Nodes, more: Alts, g: Group, gpc: nat, k2: Cont, r: Res)
    requires Lo(k2) <= r.pos <= |md.c.s|
    ensures Good(md.c, r.pos, [r])
    ensures WaysOuts(md, b, more, g, k2, r) == Outs(md.c, md.mstart, In(b, g, gpc, r.pos, k2), [r]) + AltOuts(md, more, g, k2, r)
    ensures more.Alt? ==> AltOuts(md, more, g, k2, r) == WaysOuts(md, more.b, more.more, g, k2, r)
  {
    hide Outs, AfterKet, AllNodes, BranchProg;
    BranchOuts(md, b, more, g, gpc, k2, r);
  }

  lemma LostBranch(md: Md, b: Nodes, more: Alts, g: Group, gpc: nat, k: Cont, p: nat, chain: seq<nat>)
    requires Lost(md, In(b, g, gpc, p, k), p, if g.s then [p] + chain else chain)
    requires more.Alt? ==> LostBranches(md, more.b, more.more, g, k, p, chain)
    ensures LostBranches(md, b, more, g, k, p, chain)
  {
    hide Through, Left;
    forall e: nat | Through(md.c, b, more, g, k, p, chain, e) ensures Rejected(md, e) { ThroughFirst(md.c, b, more, g, gpc, k, p, chain, e); }
  }

  lemma {:induction false} WCapAlts(md: Md, hi: nat, st: State, f: Frame, b: Nodes, more: Alts, g: Group, gpc: nat, k2: Cont, r: Res)
    requires PoisedBranch(md, hi, st, f, b, more, g, gpc, k2, r)
    ensures Fate(md, hi, OpenCaps(In(b, g, gpc, r.pos, k2)), st, CapAlts(md, st, f, g.s), WaysOuts(md, b, more, g, k2, r),
                 LostBranches(md, b, more, g, k2, r.pos, f.chain))
    decreases md.limit - st.count, 1, |md.code| - f.pc, 0
  {
    hide Run, Call, Deeper, CapAlts, BraAlts, AfterClose, Outs, AllGroup, WaysOuts, AltOuts, KetOuts, KAt, Sound, Agree, Numbered, Fate, Kept, OneOf, Lost, LostGroup, LostBranches,
         LostKet, Live, LiveGroup, LiveBranch, Poised, PoisedGroup, PoisedBranch, Closing, Has, EncNode, EncGroup, Span, BranchAt, FormedGroup, Restore, At, Get, OpenLen, OpenCaps,
         Started, Close, Closed, KetTop, Room, Pushed;
    var p, kb, open := r.pos, In(b, g, gpc, r.pos, k2), OpenCaps(In(b, g, gpc, r.pos, k2));
    var in_ := f.(pc := f.pc + OpenLen(At(md.code, f.pc)));
    BranchPoised(md, hi, st, f, b, more, g, gpc, k2, r);
    SplitWays(md, b, more, g, gpc, k2, r);
    WDeeper(md, hi, st, in_, g.s, kb, r);
    PushedIs(in_, g.s);
    CapStep(md, st, f, g.s);
    var o, whole := Deeper(md, st, in_, g.s), CapAlts(md, st, f, g.s);
    var a, y := Outs(md.c, md.mstart, kb, [r]), AltOuts(md, more, g, k2, r);
    var la, lost := Lost(md, kb, p, if g.s then [p] + f.chain else f.chain), LostBranches(md, b, more, g, k2, p, f.chain);
    var lb := more.Alt? ==> LostBranches(md, more.b, more.more, g, k2, p, f.chain);
    if la && lb { LostBranch(md, b, more, g, gpc, k2, p, f.chain); }
    if o.rc == NOMATCH {
      FateKept(md, hi, open, st, o, a, la);
      if more.NoAlt? {
        LastCode(md, f.pc, b, g, gpc);
        KeptLen(md, hi, open, st, o.st);
        FateNone(md, hi, open, o.st, y, lb);
      } else {
        PoisedNext(md, hi, st, o.st, f, b, more, g, gpc, k2, r);
        WCapAlts(md, hi, o.st, f.(pc := f.pc + Get(md.code, f.pc + 1)), more.b, more.more, g, gpc, k2, r);
      }
    }
    FateOr(md, hi, open, st, o, whole, a, la, y, lb, a + y, lost);
  }

  lemma PushedIs(f: Frame, cbe: bool)
    ensures Pushed(f, cbe).chain == if cbe then [f.eptr] + f.chain else f.chain
  {
  }

  lemma CapStep(md: Md, st: State, f: Frame, cbe: bool)
    requires Wf(md, st, f)
    ensures var o := Deeper(md, st, f.(pc := f.pc + OpenLen(At(md.code, f.pc))), cbe);
      var next := f.pc + Get(md.code, f.pc + 1);
      Wf(md, o.st, f) || o.rc != NOMATCH
    ensures var o := Deeper(md, st, f.(pc := f.pc + OpenLen(At(md.code, f.pc))), cbe);
      var next := f.pc + Get(md.code, f.pc + 1);
      CapAlts(md, st, f, cbe) ==
        if o.rc != NOMATCH then o
        else if f.pc < next && At(md.code, next) == OP_ALT then CapAlts(md, o.st, f.(pc := next), cbe)
        else Out(NOMATCH, o.st)
  {
    hide Deeper, Get, At;
  }

  lemma BraStep(md: Md, st: State, f: Frame, cbe: bool)
    requires Wf(md, st, f)
    ensures var in_ := f.(pc := f.pc + OpenLen(At(md.code, f.pc)));
      var o := Deeper(md, st, in_, cbe);
      var next := f.pc + Get(md.code, f.pc + 1);
      (Wf(md, o.st, f) || o.rc != NOMATCH) &&
      BraAlts(md, st, f, cbe) ==
        if At(md.code, next) != OP_ALT || next == f.pc then if cbe then o else Call(md, st, in_, false)
        else if o.rc != NOMATCH then o
        else BraAlts(md, o.st, f.(pc := next), cbe)
  {
    hide Deeper, Call, Get, At;
  }

  lemma {:induction false} WBraAlts(md: Md, hi: nat, st: State, f: Frame, b: Nodes, more: Alts, g: Group, gpc: nat, k2: Cont, r: Res)
    requires PoisedBranch(md, hi, st, f, b, more, g, gpc, k2, r)
    ensures Fate(md, hi, OpenCaps(In(b, g, gpc, r.pos, k2)), st, BraAlts(md, st, f, g.s), WaysOuts(md, b, more, g, k2, r),
                 LostBranches(md, b, more, g, k2, r.pos, f.chain))
    decreases md.limit - st.count, 1, |md.code| - f.pc, 0
  {
    hide Run, Call, Deeper, CapAlts, BraAlts, AfterClose, Outs, AllGroup, WaysOuts, AltOuts, KetOuts, KAt, Sound, Agree, Numbered, Fate, Kept, OneOf, Lost, LostGroup, LostBranches,
         LostKet, Live, LiveGroup, LiveBranch, Poised, PoisedGroup, PoisedBranch, Closing, Has, EncNode, EncGroup, Span, BranchAt, FormedGroup, Restore, At, Get, OpenLen, OpenCaps,
         Started, Close, Closed, KetTop, Room, Pushed;
    var p, kb, open := r.pos, In(b, g, gpc, r.pos, k2), OpenCaps(In(b, g, gpc, r.pos, k2));
    var in_ := f.(pc := f.pc + OpenLen(At(md.code, f.pc)));
    BranchPoised(md, hi, st, f, b, more, g, gpc, k2, r);
    SplitWays(md, b, more, g, gpc, k2, r);
    PushedIs(in_, g.s);
    BraStep(md, st, f, g.s);
    var o, whole := Deeper(md, st, in_, g.s), BraAlts(md, st, f, g.s);
    var a, y := Outs(md.c, md.mstart, kb, [r]), AltOuts(md, more, g, k2, r);
    var la, lost := Lost(md, kb, p, if g.s then [p] + f.chain else f.chain), LostBranches(md, b, more, g, k2, p, f.chain);
    var lb := more.Alt? ==> LostBranches(md, more.b, more.more, g, k2, p, f.chain);
    if la && lb { LostBranch(md, b, more, g, gpc, k2, p, f.chain); }
    if more.NoAlt? {
      LastCode(md, f.pc, b, g, gpc);
      if g.s { WDeeper(md, hi, st, in_, g.s, kb, r); } else { WCall(md, hi, st, in_, false, kb, r); }
      FateWiden(md, hi, open, st, whole, a, la, a + y, lost);
    } else {
      WDeeper(md, hi, st, in_, g.s, kb, r);
      NextCode(md, f.pc, b, more, g, gpc);
      if o.rc == NOMATCH {
        FateKept(md, hi, open, st, o, a, la);
        PoisedNext(md, hi, st, o.st, f, b, more, g, gpc, k2, r);
        WBraAlts(md, hi, o.st, f.(pc := f.pc + Get(md.code, f.pc + 1)), more.b, more.more, g, gpc, k2, r);
      }
      FateOr(md, hi, open, st, o, whole, a, la, y, lb, a + y, lost);
    }
  }

  // ---------- kets ----------

  /** At the ket of k, whose group has just been closed, giving r1. */
  ghost predicate Closing(md: Md, hi: nat, st: State, f: Frame, k: Cont, r1: Res) {
    k.In? && MdOk(md) && Wf(md, st, f) && k.gpc < f.pc < |md.code| && At(md.code, f.pc) == KetOp(k.g.ket) &&
    Has(md.code, k.gpc, EncGroup(k.g)) && f.pc == k.gpc + Span(k.g) && KAt(md.code, f.pc + 3, k.k) &&
    ValidGroup(k.g, md.c.nocase) && GuardedGroup(k.g) && Sound(md.c, k.k, f.eptr, f.chain, false) &&
    FormedGroup(k.g, Inmost(k.k), hi) && Held(md, hi, st, f, k.k, r1) && f.eptr == r1.pos && Lo(k.k) <= r1.pos <= |md.c.s|
  }

  lemma ClosingReady(md: Md, hi: nat, st: State, f: Frame, k: Cont, r1: Res)
    requires Closing(md, hi, st, f, k, r1)
    ensures Poised(md, hi, st, f.(pc := f.pc + 3), k.k, r1) && PoisedGroup(md, hi, st, f.(pc := k.gpc), k.g, k.k, r1)
    ensures k.In? && f.pc < |md.code| && At(md.code, f.pc) == KetOp(k.g.ket) && Lo(k.k) <= r1.pos <= |md.c.s|
    ensures MdOk(md) && Wf(md, st, f) && f.eptr == r1.pos && Good(md.c, Lo(k.k), [r1]) && Good(md.c, Lo(k.k), AllGroup(md.c, k.g, r1))
  {
    hide KAt, Sound, Agree, Numbered, Has, EncGroup, SureGroup, GuardedGroup, ValidGroup, FormedGroup, Span, AllGroup, KetOp, At;
    SoundUp(md.c, k.k, f.eptr, f.chain, false, f.eptr, SureGroup(k.g));
  }

  /** Nothing is left behind the ket, nor round again. */
  ghost predicate LostKet(md: Md, k: Cont, p: nat, chain: seq<nat>, empty: bool)
    requires k.In?
  {
    Lost(md, k.k, p, chain) && (k.g.ket == Ket || empty || LostGroup(md, k.g, k.k, p, if k.g.s then [p] + chain else chain))
  }

  lemma LostKetIs(md: Md, k: Cont, p: nat, chain: seq<nat>, empty: bool, la: bool, lb: bool)
    requires k.In? && lb == Lost(md, k.k, p, chain) && la == LostGroup(md, k.g, k.k, p, if k.g.s then [p] + chain else chain)
    ensures LostKet(md, k, p, chain, empty) == (lb && (k.g.ket == Ket || empty || la))
  {
    hide Lost, LostGroup;
  }

  lemma KetOutsIs(md: Md, k: Cont, r1: Res, empty: bool)
    requires k.In? && Lo(k.k) <= r1.pos <= |md.c.s|
    ensures Good(md.c, Lo(k.k), [r1]) && Good(md.c, Lo(k.k), AllGroup(md.c, k.g, r1)) && Good(md.c, Lo(k.k), KetOuts(md, k, r1, empty))
    ensures var a, b := Outs(md.c, md.mstart, k.k, AllGroup(md.c, k.g, r1)), Outs(md.c, md.mstart, k.k, [r1]);
      Outs(md.c, md.mstart, k.k, KetOuts(md, k, r1, empty)) ==
        if k.g.ket == Ket || empty then b else if k.g.ket == KetRMax then a + b else b + a
  {
    hide Outs, AllGroup;
    OutsAppend(md.c, md.mstart, k.k, AllGroup(md.c, k.g, r1), [r1]);
    OutsAppend(md.c, md.mstart, k.k, [r1], AllGroup(md.c, k.g, r1));
  }

  ghost predicate CloseFate(md: Md, hi: nat, st: State, f: Frame, k: Cont, r1: Res, empty: bool)
    requires k.In? && Wf(md, st, f) && f.pc < |md.code| && Lo(k.k) <= r1.pos <= |md.c.s|
  {
    Good(md.c, Lo(k.k), KetOuts(md, k, r1, empty)) &&
    Fate(md, hi, OpenCaps(k.k), st, AfterClose(md, st, f, k.gpc, k.g.s, empty),
         Outs(md.c, md.mstart, k.k, KetOuts(md, k, r1, empty)), LostKet(md, k, r1.pos, f.chain, empty))
  }

  lemma {:induction false} WClose(md: Md, hi: nat, st: State, f: Frame, k: Cont, r1: Res, empty: bool)
    requires Closing(md, hi, st, f, k, r1)
    ensures CloseFate(md, hi, st, f, k, r1, empty)
    decreases md.limit - st.count, 1, |md.code| - f.pc, 7
  {
    hide Run, Call, Deeper, CapAlts, BraAlts, AfterClose, Outs, AllGroup, WaysOuts, AltOuts, KetOuts, KAt, Sound, Agree, Numbered, Fate, Kept, OneOf, Lost, LostGroup, LostBranches, KetOp,
         LostKet, Live, LiveGroup, LiveBranch, Poised, PoisedGroup, PoisedBranch, Closing, Has, EncNode, EncGroup, Span, BranchAt, FormedGroup, Restore, At, Get, OpenLen, OpenCaps,
         Started, Close, Closed, KetTop, Room, Pushed;
    ClosingReady(md, hi, st, f, k, r1);
    var g, k2, p, open := k.g, k.k, r1.pos, OpenCaps(k.k);
    var after, again := f.(pc := f.pc + 3), f.(pc := k.gpc);
    CloseIs(md, st, f, k, empty);
    KetOutsIs(md, k, r1, empty);
    PushedNot(after);
    PushedIs(again, g.s);
    PushedIs(again, false);
    var a, b := Outs(md.c, md.mstart, k2, AllGroup(md.c, g, r1)), Outs(md.c, md.mstart, k2, [r1]);
    var la, lb := LostGroup(md, g, k2, p, if g.s then [p] + f.chain else f.chain), Lost(md, k2, p, f.chain);
    var outs, lost := Outs(md.c, md.mstart, k2, KetOuts(md, k, r1, empty)), LostKet(md, k, p, f.chain, empty);
    var whole := AfterClose(md, st, f, k.gpc, g.s, empty);
    LostKetIs(md, k, p, f.chain, empty, la, lb);
    if g.ket == Ket || empty {
      WRun(md, hi, st, after, k2, r1);
    } else if g.ket == KetRMin {
      WDeeper(md, hi, st, after, false, k2, r1);
      var o := Deeper(md, st, after, false);
      if o.rc == NOMATCH {
        FateKept(md, hi, open, st, o, b, lb);
        PoisedGroupAfter(md, hi, st, o.st, again, g, k2, r1);
        PoisedDeep(md, hi, o.st, again, g, k2, r1);
        GroupWf(md, hi, o.st, again, g, k2, r1);
        DeeperIs(md, o.st, again, true);
        WGroupCall(md, hi, o.st, if g.s then again.(rdepth := f.rdepth + 1) else again, g.s, g, k2, r1);
        PushedIs(again.(rdepth := f.rdepth + 1), true);
      }
      FateOr(md, hi, open, st, o, whole, b, lb, a, la, outs, lost);
    } else {
      PoisedDeep(md, hi, st, again, g, k2, r1);
      GroupWf(md, hi, st, again, g, k2, r1);
      DeeperIs(md, st, again, g.s);
      PushedIs(again.(rdepth := f.rdepth + 1), g.s);
      WGroupCall(md, hi, st, again.(rdepth := f.rdepth + 1), g.s, g, k2, r1);
      var o := Deeper(md, st, again, g.s);
      if o.rc == NOMATCH {
        FateKept(md, hi, open, st, o, a, la);
        PoisedAfter(md, hi, st, o.st, after, k2, r1);
        WCall(md, hi, o.st, after, false, k2, r1);
      }
      FateOr(md, hi, open, st, o, whole, a, la, b, lb, outs, lost);
    }
  }

  lemma GroupWf(md: Md, hi: nat, st: State, f: Frame, g: Group, k2: Cont, r: Res)
    requires PoisedGroup(md, hi, st, f, g, k2, r)
    ensures Wf(md, st, f) && MdOk(md)
  {
  }

  lemma PoisedDeep(md: Md, hi: nat, st: State, f: Frame, g: Group, k2: Cont, r: Res)
    requires PoisedGroup(md, hi, st, f, g, k2, r)
    ensures PoisedGroup(md, hi, st, f.(rdepth := f.rdepth + 1), g, k2, r)
  {
    hide KAt, Sound, Agree, Numbered, Has, EncGroup, SureGroup, GuardedGroup, ValidGroup, FormedGroup;
  }

  lemma {:induction false} WKet(md: Md, hi: nat, st: State, f: Frame, k: Cont, r: Res)
    requires Poised(md, hi, st, f, k, r) && k.In? && k.ns.Nil? && f.pc == k.gpc + Span(k.g)
    ensures Fate(md, hi, OpenCaps(k), st, Run(md, st, f), Outs(md.c, md.mstart, k, [r]), Lost(md, k, r.pos, f.chain))
    decreases md.limit - st.count, 1, |md.code| - f.pc, 8
  {
    hide Run, Call, Deeper, CapAlts, BraAlts, AfterClose, Outs, AllGroup, WaysOuts, AltOuts, KetOuts, KAt, Sound, Agree, Numbered, Fate, Kept, OneOf, Lost, LostGroup, LostBranches,
         LostKet, Live, LiveGroup, LiveBranch, Poised, PoisedGroup, PoisedBranch, Closing, Has, EncNode, EncGroup, Span, BranchAt, FormedGroup, Restore, At, Get, OpenLen, OpenCaps,
         Started, Close, Closed, KetTop, Room, Pushed;
    KetClosing(md, hi, st, f, k, r);
    var g, r1, st1 := k.g, Close(k.g.cap, k.start, r), Closed(md, st, k.g, r.pos);
    var f1 := f.(chain := if g.s then f.chain[1..] else f.chain, top := if g.cap == 0 then f.top else KetTop(md, f.top, g.cap));
    var empty := g.s && f.eptr == f.chain[0];
    KetRuns(md, st, f, g, k.gpc);
    WClose(md, hi, st1, f1, k, r1, empty);
    KetMore(md, k, r, empty);
    var la, lost := LostKet(md, k, r.pos, f1.chain, empty), Lost(md, k, r.pos, f.chain);
    if la { LostAtKet(md, k, r.pos, f.chain, empty); }
    FateOuter(md, hi, k, st, st1, Run(md, st, f), Outs(md.c, md.mstart, k.k, KetOuts(md, k, r1, empty)), la);
    FateWiden(md, hi, OpenCaps(k), st, Run(md, st, f), Outs(md.c, md.mstart, k.k, KetOuts(md, k, r1, empty)), la,
              Outs(md.c, md.mstart, k, [r]), lost);
  }

  /** The state after the ket has recorded the group and popped the chain. */
  lemma KetClosing(md: Md, hi: nat, st: State, f: Frame, k: Cont, r: Res)
    requires Poised(md, hi, st, f, k, r) && k.In? && k.ns.Nil? && f.pc == k.gpc + Span(k.g)
    ensures k.g.s ==> f.chain != []
    ensures MdOk(md) && Wf(md, st, f) && k.gpc < f.pc < |md.code| && k.g.cap < 0x1_0000 && f.eptr == r.pos
    ensures At(md.code, f.pc) == KetOp(k.g.ket) && Get(md.code, f.pc + 1) == f.pc - k.gpc
    ensures At(md.code, k.gpc) == BraOp(k.g) && (k.g.cap != 0 ==> Get(md.code, k.gpc + 3) == k.g.cap)
    ensures md.offsetEnd % 3 == 0 && |st.vec| == md.offsetEnd
    ensures var g, r1, st1 := k.g, Close(k.g.cap, k.start, r), Closed(md, st, k.g, r.pos);
      var f1 := f.(chain := if g.s then f.chain[1..] else f.chain, top := if g.cap == 0 then f.top else KetTop(md, f.top, g.cap));
      Closing(md, hi, st1, f1, k, r1) && Kept(md, hi, OpenCaps(k), st, st1) && r1.pos == r.pos && st1.count == st.count
    ensures Lo(k.k) <= k.start <= r.pos <= |md.c.s| && Good(md.c, Lo(k), [r]) && Under(f.chain, r.pos)
    ensures k.g.ket != Ket && !(k.g.s && r.pos == f.chain[0]) ==> k.start < r.pos
  {
    hide KAt, Sound, Agree, Has, EncGroup, Same, Formed, GuardedGroup, SureGroup, ValidGroup, FormedGroup, Span, Open, BraOp, KetOp, Close, KetState, Get, At, KetTop;
    LiveFacts(md, st, f, k);
    SoundKet(md.c, k, f.eptr, f.chain);
    KetCode(md, f, k);
    KetOpen(md.c, k, f.eptr, f.chain);
    GroupApart(k.g, k.k, hi);
    CloseAgree(md, st, k, r);
    AgreeLen(md, k, st.vec, r.vec);
    KetTopOk(md, st, k, r);
    ClosedFacts(md, hi, st, k.g, r.pos, k.start, r);
    OpenLo(md.c, k, f.eptr);
  }

  lemma AgreeLen(md: Md, k: Cont, vec: seq<int>, caps: seq<int>)
    requires Agree(md, k, vec, caps)
    ensures |caps| == md.OffsetMax()
  {
  }

  lemma OpenLo(c: Ctx, k: Cont, pos: nat)
    requires Open(c, k, pos) && k.In?
    ensures Lo(k.k) <= k.start <= pos
  {
  }

  lemma ClosedFacts(md: Md, hi: nat, st: State, g: Group, pos: nat, start: nat, r: Res)
    requires md.offsetEnd % 3 == 0 && |st.vec| == md.offsetEnd && (g.cap != 0 ==> g.cap <= hi)
    ensures var st1 := Closed(md, st, g, pos);
      st1.count == st.count && |st1.vec| == |st.vec| && (2 * hi < md.OffsetMax() ==> st1.overflow == st.overflow)
    ensures Close(g.cap, start, r).pos == r.pos
  {
  }

  /** What is tried at the ket is among what follows from it. */
  lemma KetMore(md: Md, k: Cont, r: Res, empty: bool)
    requires k.In? && k.ns.Nil? && Lo(k.k) <= k.start <= r.pos <= |md.c.s| && Good(md.c, Lo(k), [r])
    requires k.g.ket != Ket && !empty ==> k.start < r.pos
    ensures var r1 := Close(k.g.cap, k.start, r);
      r1.pos == r.pos && Good(md.c, Lo(k.k), KetOuts(md, k, r1, empty)) &&
      forall x :: x in Outs(md.c, md.mstart, k.k, KetOuts(md, k, r1, empty)) ==> x in Outs(md.c, md.mstart, k, [r])
  {
    OutsNil(md.c, md.mstart, k, r);
    var r1 := Close(k.g.cap, k.start, r);
    assert [r][1..] == [];
    assert AfterKet(md.c, k.g, k.start, [r]) == KetChoice(md.c, k.g, k.start, r);
    KetOutsIs(md, k, r1, empty);
    KetOutsIs(md, k, r1, false);
    hide Outs, AfterKet, AllGroup;
    assert k.start < r.pos ==> KetChoice(md.c, k.g, k.start, r) == KetOuts(md, k, r1, false);
    assert k.g.ket == Ket || k.start >= r.pos ==> KetChoice(md.c, k.g, k.start, r) == [r1];
  }

  lemma LostAtKet(md: Md, k: Cont, p: nat, chain: seq<nat>, empty: bool)
    requires k.In? && k.ns.Nil? && (k.g.s ==> chain != []) && Under(chain, p) && empty == (k.g.s && p == chain[0])
    requires LostKet(md, k, p, if k.g.s then chain[1..] else chain, empty)
    ensures Lost(md, k, p, chain)
  {
    hide Left, Enter;
    var popped := if k.g.s then chain[1..] else chain;
    var up := if k.g.s then [p] + popped else popped;
    forall e: nat | Left(md.c, k, p, chain, e) ensures Rejected(md, e) { LeftKet(md.c, k, p, chain, up, e); }
  }

  lemma FateOuter(md: Md, hi: nat, k: Cont, st: State, st1: State, o: Out, outs: seq<Res>, lost: bool)
    requires k.In? && Kept(md, hi, OpenCaps(k), st, st1) && Fate(md, hi, OpenCaps(k.k), st1, o, outs, lost)
    ensures Fate(md, hi, OpenCaps(k), st, o, outs, lost)
  {
    hide OneOf;
  }
}
