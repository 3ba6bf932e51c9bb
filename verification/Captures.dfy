/** Capture discipline: what the offset pairs of a match look like. */
module Captures {
  import opened Bytes
  import opened Code
  import opened Semantics
  import opened Machine
  import opened Simulation
  import opened Shape
  import opened Pattern
  import opened Lowering
  import opened Theorems
  import opened Leftover

  predicate SamePair(v: seq<int>, w: seq<int>, m: nat)
    requires |v| == |w| && 2 * m + 1 < |v|
  {
    v[2 * m] == w[2 * m] && v[2 * m + 1] == w[2 * m + 1]
  }

  /** The pair of group m is a substring of the subject between lo and hi. */
  predicate Within(v: seq<int>, m: nat, lo: int, hi: int)
    requires 2 * m + 1 < |v|
  {
    lo <= v[2 * m] <= v[2 * m + 1] <= hi
  }

  /** r' comes out of items that started at r and hold the groups caps: the other
      groups are as they were, and a group that was captured again lies between. */
  ghost predicate Follows(caps: set<nat>, r: Res, r': Res) {
    |r.vec| == |r'.vec| && r.pos <= r'.pos && r.top <= r'.top &&
    forall m: nat :: 2 * m + 1 < |r.vec| ==>
      SamePair(r.vec, r'.vec, m) || (m in caps && Within(r'.vec, m, r.pos, r'.pos) && 2 * m < r'.top)
  }

  ghost predicate AllFollow(caps: set<nat>, r: Res, rs: seq<Res>) {
    forall i :: 0 <= i < |rs| ==> Follows(caps, r, rs[i])
  }

  lemma FollowsTrans(a: set<nat>, b: set<nat>, r: Res, r1: Res, r2: Res)
    requires Follows(a, r, r1) && Follows(b, r1, r2)
    ensures Follows(a + b, r, r2)
  {
    forall m: nat | 2 * m + 1 < |r.vec|
      ensures SamePair(r.vec, r2.vec, m) || (m in a + b && Within(r2.vec, m, r.pos, r2.pos) && 2 * m < r2.top)
    {
      assert SamePair(r.vec, r1.vec, m) || Within(r1.vec, m, r.pos, r1.pos);
      assert SamePair(r1.vec, r2.vec, m) || Within(r2.vec, m, r1.pos, r2.pos);
    }
  }

  lemma {:induction false} NodesFollow(c: Ctx, ns: Nodes, r: Res)
    requires r.pos <= |c.s|
    ensures AllFollow(Caps(ns), r, AllNodes(c, ns, r))
    decreases |c.s| - r.pos, ns, 1
  {
    hide Follows, Each, AllNode;
    if ns.Nil? {
      Stays({}, r);
    } else {
      NodeFollows(c, ns.n, r);
      EachFollows(c, ns.rest, NodeCaps(ns.n), r, r.pos, AllNode(c, ns.n, r));
    }
  }

  lemma Stays(caps: set<nat>, r: Res)
    ensures Follows(caps, r, r)
  {
  }

  function NodeCaps(n: Node): set<nat> { if n.Grp? then CapsGroup(n.g) else if n.Once? then Caps(n.ns) else {} }

  lemma {:induction false} EachFollows(c: Ctx, ns: Nodes, caps: set<nat>, r: Res, lo: nat, rs: seq<Res>)
    requires r.pos <= lo <= |c.s| && Good(c, lo, rs) && AllFollow(caps, r, rs)
    ensures AllFollow(caps + Caps(ns), r, Each(c, ns, lo, rs))
    decreases |c.s| - lo, ns, 2, |rs|
  {
    hide Follows, AllNodes;
    if rs != [] {
      var r1 := rs[0];
      var out := AllNodes(c, ns, r1);
      NodesFollow(c, ns, r1);
      forall i | 0 <= i < |out| ensures Follows(caps + Caps(ns), r, out[i]) {
        FollowsTrans(caps, Caps(ns), r, r1, out[i]);
      }
      EachFollows(c, ns, caps, r, lo, rs[1..]);
    }
  }

  lemma {:induction false} NodeFollows(c: Ctx, n: Node, r: Res)
    requires r.pos <= |c.s|
    ensures AllFollow(NodeCaps(n), r, AllNode(c, n, r))
    decreases |c.s| - r.pos, n, 0
  {
    hide AllGroup, KindRuns;
    if n.Grp? {
      GroupFollows(c, n.g, r);
      hide Follows;
      Stays(CapsGroup(n.g), r);
    } else if n.Once? {
      NodesFollow(c, n.ns, r);
    }
  }

  lemma {:induction false} GroupFollows(c: Ctx, g: Group, r: Res)
    requires r.pos <= |c.s|
    ensures AllFollow(CapsGroup(g), r, AllGroup(c, g, r))
    decreases |c.s| - r.pos, g, 3
  {
    hide Follows, AllNodes, AllAlts, AfterKet;
    NodesFollow(c, g.b, r);
    AltsFollow(c, g.more, r);
    var rs := AllNodes(c, g.b, r) + AllAlts(c, g.more, r);
    forall i | 0 <= i < |rs| ensures Follows(CapsGroup(g), r, rs[i]) {
      Wider(if i < |AllNodes(c, g.b, r)| then Caps(g.b) else CapsAlts(g.more), CapsGroup(g), r, rs[i]);
    }
    KetFollows(c, g, r, r.pos, rs);
  }

  lemma Wider(a: set<nat>, b: set<nat>, r: Res, r': Res)
    requires Follows(a, r, r') && a <= b
    ensures Follows(b, r, r')
  {
  }

  lemma {:induction false} AltsFollow(c: Ctx, a: Alts, r: Res)
    requires r.pos <= |c.s|
    ensures AllFollow(CapsAlts(a), r, AllAlts(c, a, r))
    decreases |c.s| - r.pos, a, 1
  {
    hide Follows, AllNodes;
    if a.Alt? {
      NodesFollow(c, a.b, r);
      AltsFollow(c, a.more, r);
      var x, y := AllNodes(c, a.b, r), AllAlts(c, a.more, r);
      forall i | 0 <= i < |x + y| ensures Follows(CapsAlts(a), r, (x + y)[i]) {
        Wider(if i < |x| then Caps(a.b) else CapsAlts(a.more), CapsAlts(a), r, (x + y)[i]);
      }
    }
  }

  /** At the ket: the group itself is captured, from the start of this iteration. */
  lemma CloseFollows(g: Group, start: nat, r: Res, r1: Res)
    requires Follows(CapsGroup(g), r, r1) && r.pos <= start <= r1.pos
    ensures Follows(CapsGroup(g), r, Close(g.cap, start, r1))
  {
    var r2 := Close(g.cap, start, r1);
    hide CapsGroup;
    if g.cap != 0 { assert g.cap in CapsGroup(g) by { OwnCap(g); } }
    forall m: nat | 2 * m + 1 < |r.vec|
      ensures SamePair(r.vec, r2.vec, m) || (m in CapsGroup(g) && Within(r2.vec, m, r.pos, r2.pos) && 2 * m < r2.top)
    {
      assert m != g.cap || g.cap == 0 ==> SamePair(r1.vec, r2.vec, m);
      assert SamePair(r.vec, r1.vec, m) || Within(r1.vec, m, r.pos, r1.pos);
    }
  }

  lemma OwnCap(g: Group)
    requires g.cap != 0
    ensures g.cap in CapsGroup(g)
  {
  }

  lemma {:induction false} KetFollows(c: Ctx, g: Group, r: Res, start: nat, rs: seq<Res>)
    requires r.pos <= start <= |c.s| && Good(c, start, rs) && AllFollow(CapsGroup(g), r, rs)
    ensures AllFollow(CapsGroup(g), r, AfterKet(c, g, start, rs))
    decreases |c.s| - start, g, 2, |rs|
  {
    hide Follows, AllGroup, CapsGroup;
    if rs != [] {
      var r1 := Close(g.cap, start, rs[0]);
      CloseFollows(g, start, r, rs[0]);
      if g.ket != Ket && start < rs[0].pos {
        var again := AllGroup(c, g, r1);
        GroupFollows(c, g, r1);
        forall i | 0 <= i < |again| ensures Follows(CapsGroup(g), r, again[i]) {
          FollowsTrans(CapsGroup(g), CapsGroup(g), r, r1, again[i]);
          assert CapsGroup(g) + CapsGroup(g) == CapsGroup(g);
        }
      }
      KetFollows(c, g, r, start, rs[1..]);
    }
  }

  // ---------- at the end of a match ----------

  /** When match() succeeds from unset offsets, the pair of every group is unset, or
      is a substring of what was matched; and offsets above endTop are unset. */
  lemma MatchCaptures(md: Md, st: State, b: Branch, more: Branches, m: nat)
    requires Running(md, st, b, more) && 2 * m + 1 < md.OffsetMax()
    requires forall i :: 0 <= i < md.OffsetMax() ==> st.vec[i] == -1
    ensures var o := Call(md, st, Begin(md), false);
      o.rc == MATCH ==>
        md.mstart <= o.st.endPtr <= |md.c.s| && |o.st.vec| == md.offsetEnd &&
        ((o.st.vec[2 * m] == -1 && o.st.vec[2 * m + 1] == -1) ||
         (Within(o.st.vec, m, md.mstart, o.st.endPtr) && 2 * m < o.st.endTop))
  {
    MatchIsSome(md, st, b, more);
    RunningFacts(md, st, b, more);
    RunningReady(md, st, b, more);
    var g, r, o := Compile(b, more, md.c.nocase), Start(md, st), Call(md, st, Begin(md), false);
    GroupFollows(md.c, g, r);
    FilterOf(md.c, md.mstart, Matches(md.c, b, more, r));
    hide Call, Matches, AllGroup, Filter, Running, Compile, PoisedGroup, CapsGroup, Follows;
    if o.rc == MATCH {
      var r': Res :| r' in Filter(md.c, md.mstart, Matches(md.c, b, more, r)) && Matched(md, o.st, r');
      var rs := AllGroup(md.c, g, r);
      assert r' in rs;
      var i :| 0 <= i < |rs| && rs[i] == r';
      FollowedPair(md, st, o.st, CapsGroup(g), r', m);
    }
  }

  lemma FollowedPair(md: Md, st: State, st': State, caps: set<nat>, r': Res, m: nat)
    requires md.offsetEnd == |st.vec| && Follows(caps, Start(md, st), r') && Matched(md, st', r') && 2 * m + 1 < md.OffsetMax()
    requires forall i :: 0 <= i < md.OffsetMax() ==> st.vec[i] == -1
    ensures |st'.vec| > 2 * m + 1 && ((st'.vec[2 * m] == -1 && st'.vec[2 * m + 1] == -1) ||
            (Within(st'.vec, m, md.mstart, st'.endPtr) && 2 * m < st'.endTop))
  {
    var r := Start(md, st);
    assert st'.vec[2 * m] == r'.vec[2 * m] && st'.vec[2 * m + 1] == r'.vec[2 * m + 1];
    assert SamePair(r.vec, r'.vec, m) || Within(r'.vec, m, r.pos, r'.pos);
  }
}
