/** Where items can end: without back references this does not depend on what has
    been captured, so results can be stripped to their positions. */
module Language {
  import opened Bytes
  import opened Code
  import opened Semantics
  import opened Simulation

  /** A result that records no captures. */
  function At0(pos: nat): Res { Res(pos, [], 0) }

  function Bare(rs: seq<Res>): (out: seq<Res>)
    ensures |out| == |rs| && forall i :: 0 <= i < |rs| ==> out[i] == At0(rs[i].pos)
  {
    seq(|rs|, i requires 0 <= i < |rs| => At0(rs[i].pos))
  }

  /** The items ns can match from p to e. */
  predicate Ends(c: Ctx, ns: Nodes, p: nat, e: nat)
    requires p <= |c.s|
  {
    At0(e) in AllNodes(c, ns, At0(p))
  }

  predicate EndsGroup(c: Ctx, g: Group, p: nat, e: nat)
    requires p <= |c.s|
  {
    At0(e) in AllGroup(c, g, At0(p))
  }

  lemma BareAppend(a: seq<Res>, b: seq<Res>)
    ensures Bare(a + b) == Bare(a) + Bare(b)
  {
  }

  lemma {:induction false} BareNodes(c: Ctx, ns: Nodes, r: Res)
    requires r.pos <= |c.s|
    ensures Bare(AllNodes(c, ns, r)) == AllNodes(c, ns, At0(r.pos))
    decreases |c.s| - r.pos, ns, 1
  {
    hide Each, AllNode;
    if ns.Cons? {
      BareNode(c, ns.n, r);
      BareEach(c, ns.rest, r.pos, AllNode(c, ns.n, r));
    }
  }

  lemma {:induction false} BareEach(c: Ctx, ns: Nodes, lo: nat, rs: seq<Res>)
    requires lo <= |c.s| && Good(c, lo, rs)
    ensures Good(c, lo, Bare(rs)) && Bare(Each(c, ns, lo, rs)) == Each(c, ns, lo, Bare(rs))
    decreases |c.s| - lo, ns, 2, |rs|
  {
    hide AllNodes;
    if rs != [] {
      BareNodes(c, ns, rs[0]);
      BareEach(c, ns, lo, rs[1..]);
      BareAppend(AllNodes(c, ns, rs[0]), Each(c, ns, lo, rs[1..]));
      assert Bare(rs)[1..] == Bare(rs[1..]);
    }
  }

  lemma {:induction false} BareNode(c: Ctx, n: Node, r: Res)
    requires r.pos <= |c.s|
    ensures Bare(AllNode(c, n, r)) == AllNode(c, n, At0(r.pos))
    decreases |c.s| - r.pos, n, 0
  {
    hide AllGroup, KindRuns;
    if n.Grp? {
      BareGroup(c, n.g, r);
      BareAppend(AllGroup(c, n.g, r), [r]);
      BareAppend([r], AllGroup(c, n.g, r));
    } else if n.Once? {
      BareNodes(c, n.ns, r);
    }
  }

  lemma {:induction false} BareGroup(c: Ctx, g: Group, r: Res)
    requires r.pos <= |c.s|
    ensures Bare(AllGroup(c, g, r)) == AllGroup(c, g, At0(r.pos))
    decreases |c.s| - r.pos, g, 3
  {
    hide AllNodes, AllAlts, AfterKet;
    BareNodes(c, g.b, r);
    BareAlts(c, g.more, r);
    BareAppend(AllNodes(c, g.b, r), AllAlts(c, g.more, r));
    BareKet(c, g, r.pos, AllNodes(c, g.b, r) + AllAlts(c, g.more, r));
  }

  lemma {:induction false} BareAlts(c: Ctx, a: Alts, r: Res)
    requires r.pos <= |c.s|
    ensures Bare(AllAlts(c, a, r)) == AllAlts(c, a, At0(r.pos))
    decreases |c.s| - r.pos, a, 1
  {
    hide AllNodes;
    if a.Alt? {
      BareNodes(c, a.b, r);
      BareAlts(c, a.more, r);
      BareAppend(AllNodes(c, a.b, r), AllAlts(c, a.more, r));
    }
  }

  lemma {:induction false} BareKet(c: Ctx, g: Group, start: nat, rs: seq<Res>)
    requires start <= |c.s| && Good(c, start, rs)
    ensures Good(c, start, Bare(rs)) && Bare(AfterKet(c, g, start, rs)) == AfterKet(c, g, start, Bare(rs))
    decreases |c.s| - start, g, 2, |rs|
  {
    hide AllGroup;
    if rs != [] {
      var r := Close(g.cap, start, rs[0]);
      if g.ket != Ket && r.pos > start {
        BareGroup(c, g, r);
        BareAppend(AllGroup(c, g, r), [r]);
        BareAppend([r], AllGroup(c, g, r));
      }
      BareKet(c, g, start, rs[1..]);
      BareAppend(KetChoice(c, g, start, rs[0]), AfterKet(c, g, start, rs[1..]));
      assert Bare(rs)[1..] == Bare(rs[1..]);
    }
  }

  // ---------- membership ----------

  lemma {:induction false} EachHas(c: Ctx, ns: Nodes, lo: nat, rs: seq<Res>, x: Res)
    requires lo <= |c.s| && Good(c, lo, rs)
    ensures x in Each(c, ns, lo, rs) <==> exists i :: 0 <= i < |rs| && x in AllNodes(c, ns, rs[i])
    decreases |rs|
  {
    hide AllNodes;
    if rs != [] {
      EachHas(c, ns, lo, rs[1..], x);
      if x in Each(c, ns, lo, rs[1..]) {
        var i :| 0 <= i < |rs[1..]| && x in AllNodes(c, ns, rs[1..][i]);
        assert rs[i + 1] == rs[1..][i];
      }
      if exists i :: 0 <= i < |rs| && x in AllNodes(c, ns, rs[i]) {
        var i :| 0 <= i < |rs| && x in AllNodes(c, ns, rs[i]);
        if i > 0 { assert rs[1..][i - 1] == rs[i]; }
      }
    }
  }

  /** Results of bare results are bare. */
  lemma BareStays(c: Ctx, ns: Nodes, p: nat, x: Res)
    requires p <= |c.s| && x in AllNodes(c, ns, At0(p))
    ensures x == At0(x.pos) && p <= x.pos <= |c.s|
  {
    BareNodes(c, ns, At0(p));
    var i :| 0 <= i < |AllNodes(c, ns, At0(p))| && AllNodes(c, ns, At0(p))[i] == x;
    assert Bare(AllNodes(c, ns, At0(p)))[i] == At0(x.pos);
  }

  lemma BareNodeStays(c: Ctx, n: Node, p: nat, x: Res)
    requires p <= |c.s| && x in AllNode(c, n, At0(p))
    ensures x == At0(x.pos) && p <= x.pos <= |c.s|
  {
    BareNode(c, n, At0(p));
    var i :| 0 <= i < |AllNode(c, n, At0(p))| && AllNode(c, n, At0(p))[i] == x;
    assert Bare(AllNode(c, n, At0(p)))[i] == At0(x.pos);
  }

  /** One item, then the others. */
  lemma EndsCons(c: Ctx, n: Node, rest: Nodes, p: nat, e: nat)
    requires p <= |c.s|
    ensures Ends(c, Cons(n, rest), p, e) <==>
      exists q: nat :: q <= |c.s| && At0(q) in AllNode(c, n, At0(p)) && Ends(c, rest, q, e)
  {
    hide AllNodes, AllNode, Each;
    var rs := AllNode(c, n, At0(p));
    EachHas(c, rest, p, rs, At0(e));
    FirstNode(c, n, rest, At0(p));
    if At0(e) in Each(c, rest, p, rs) {
      var i :| 0 <= i < |rs| && At0(e) in AllNodes(c, rest, rs[i]);
      BareNodeStays(c, n, p, rs[i]);
      assert At0(rs[i].pos) in rs && Ends(c, rest, rs[i].pos, e);
    }
    if exists q: nat :: q <= |c.s| && At0(q) in rs && Ends(c, rest, q, e) {
      var q: nat :| q <= |c.s| && At0(q) in rs && Ends(c, rest, q, e);
      var i :| 0 <= i < |rs| && rs[i] == At0(q);
    }
  }

  lemma FirstNode(c: Ctx, n: Node, rest: Nodes, r: Res)
    requires r.pos <= |c.s|
    ensures AllNodes(c, Cons(n, rest), r) == Each(c, rest, r.pos, AllNode(c, n, r))
  {
    hide AllNode, Each;
  }

  lemma {:induction false} KetHas(c: Ctx, g: Group, start: nat, rs: seq<Res>, x: Res)
    requires start <= |c.s| && Good(c, start, rs)
    ensures x in AfterKet(c, g, start, rs) <==> exists i :: 0 <= i < |rs| && x in KetChoice(c, g, start, rs[i])
    decreases |rs|
  {
    hide KetChoice;
    if rs != [] {
      KetHas(c, g, start, rs[1..], x);
      if x in AfterKet(c, g, start, rs[1..]) {
        var i :| 0 <= i < |rs[1..]| && x in KetChoice(c, g, start, rs[1..][i]);
        assert rs[i + 1] == rs[1..][i];
      }
      if exists i :: 0 <= i < |rs| && x in KetChoice(c, g, start, rs[i]) {
        var i :| 0 <= i < |rs| && x in KetChoice(c, g, start, rs[i]);
        if i > 0 { assert rs[1..][i - 1] == rs[i]; }
      }
    }
  }

  /** One passage through the branches of g. */
  predicate EndsOnce(c: Ctx, g: Group, p: nat, e: nat)
    requires p <= |c.s|
  {
    Ends(c, g.b, p, e) || EndsAlts(c, g.more, p, e)
  }

  predicate EndsAlts(c: Ctx, a: Alts, p: nat, e: nat)
    requires p <= |c.s|
  {
    a.Alt? && (Ends(c, a.b, p, e) || EndsAlts(c, a.more, p, e))
  }

  lemma {:induction false} AltsHas(c: Ctx, a: Alts, p: nat, x: Res)
    requires p <= |c.s|
    ensures x in AllAlts(c, a, At0(p)) ==> x == At0(x.pos) && p <= x.pos <= |c.s|
    ensures forall e: nat :: At0(e) in AllAlts(c, a, At0(p)) <==> EndsAlts(c, a, p, e)
    decreases a
  {
    hide AllNodes;
    if a.Alt? {
      AltsHas(c, a.more, p, x);
      if x in AllNodes(c, a.b, At0(p)) { BareStays(c, a.b, p, x); }
    }
  }

  /** A bracket: one passage, and for a repeating ket more after one that consumed. */
  lemma EndsGroupIff(c: Ctx, g: Group, p: nat, e: nat)
    requires p <= |c.s|
    ensures EndsGroup(c, g, p, e) <==>
      EndsOnce(c, g, p, e) ||
      (g.ket != Ket && exists q: nat :: p < q <= |c.s| && EndsOnce(c, g, p, q) && EndsGroup(c, g, q, e))
  {
    var rs := AllNodes(c, g.b, At0(p)) + AllAlts(c, g.more, At0(p));
    KetHas(c, g, p, rs, At0(e));
    hide AllNodes, AllAlts, AfterKet;
    forall i | 0 <= i < |rs| ensures rs[i] == At0(rs[i].pos) && EndsOnce(c, g, p, rs[i].pos) && p <= rs[i].pos <= |c.s| {
      AltsHas(c, g.more, p, rs[i]);
      if rs[i] in AllNodes(c, g.b, At0(p)) { BareStays(c, g.b, p, rs[i]); }
    }
    AltsHas(c, g.more, p, At0(e));
    if EndsGroup(c, g, p, e) {
      var i :| 0 <= i < |rs| && At0(e) in KetChoice(c, g, p, rs[i]);
      ChoiceOf(c, g, p, rs[i].pos, e);
    }
    if EndsOnce(c, g, p, e) {
      assert At0(e) in rs;
      var i :| 0 <= i < |rs| && rs[i] == At0(e);
      ChoiceOf(c, g, p, e, e);
    }
    if g.ket != Ket && exists q: nat :: p < q <= |c.s| && EndsOnce(c, g, p, q) && EndsGroup(c, g, q, e) {
      var q: nat :| p < q <= |c.s| && EndsOnce(c, g, p, q) && EndsGroup(c, g, q, e);
      AltsHas(c, g.more, p, At0(q));
      assert At0(q) in rs;
      var i :| 0 <= i < |rs| && rs[i] == At0(q);
      ChoiceOf(c, g, p, q, e);
    }
  }

  lemma ChoiceOf(c: Ctx, g: Group, p: nat, q: nat, e: nat)
    requires p <= q <= |c.s|
    ensures At0(e) in KetChoice(c, g, p, At0(q)) <==>
      e == q || (g.ket != Ket && p < q && EndsGroup(c, g, q, e))
  {
    hide AllGroup;
  }

  // ---------- the rest of a pattern ----------

  /** After a ket at q, the bracket may be gone through again. */
  ghost predicate Again(c: Ctx, g: Group, q: nat, q': nat)
    requires q <= |c.s|
  {
    q' == q || (g.ket != Ket && EndsGroup(c, g, q, q'))
  }

  /** The rest k of the pattern can match from p to e. */
  ghost predicate Rest(c: Ctx, k: Cont, p: nat, e: nat)
    requires p <= |c.s|
    decreases k
  {
    match k
    case Done => e == p
    case In(ns, g, _, _, k') =>
      exists q: nat, q': nat :: q <= |c.s| && q' <= |c.s| && Ends(c, ns, p, q) && Again(c, g, q, q') && Rest(c, k', q', e)
  }
}
