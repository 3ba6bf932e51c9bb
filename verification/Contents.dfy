/** What a group captures: text that its own contents match. And what is counted: the
    groups up to the highest one that is set. */
module Contents {
  import opened Bytes
  import opened Code
  import opened Semantics
  import opened Language
  import opened Machine
  import opened Simulation
  import opened Shape
  import opened Pattern
  import opened Lowering
  import opened Theorems
  import opened Leftover
  import opened Captures
  import opened Leftmost

  /** One of the groups numbered n in g matches, in one iteration, from lo to hi. */
  ghost predicate Caught(c: Ctx, g: Group, n: nat, lo: nat, hi: nat)
    decreases g, 0
  {
    (g.cap == n && lo <= |c.s| && EndsOnce(c, g, lo, hi)) || CaughtIn(c, g.b, n, lo, hi) || CaughtAlts(c, g.more, n, lo, hi)
  }

  ghost predicate CaughtIn(c: Ctx, ns: Nodes, n: nat, lo: nat, hi: nat)
    decreases ns, 1
  {
    ns.Cons? && (CaughtNode(c, ns.n, n, lo, hi) || CaughtIn(c, ns.rest, n, lo, hi))
  }

  ghost predicate CaughtNode(c: Ctx, x: Node, n: nat, lo: nat, hi: nat)
    decreases x, 0
  {
    (x.Grp? && Caught(c, x.g, n, lo, hi)) || (x.Once? && CaughtIn(c, x.ns, n, lo, hi))
  }

  ghost predicate CaughtAlts(c: Ctx, a: Alts, n: nat, lo: nat, hi: nat)
    decreases a, 1
  {
    a.Alt? && (CaughtIn(c, a.b, n, lo, hi) || CaughtAlts(c, a.more, n, lo, hi))
  }

  /** From r to r' only pairs have changed that groups of g have caught, and where more
      groups are counted the last one of them is set. */
  ghost predicate Held(c: Ctx, g: Group, r: Res, r': Res) {
    |r.vec| == |r'.vec| && r.top <= r'.top &&
    (forall m: nat :: 2 * m + 1 < |r.vec| ==> SamePair(r.vec, r'.vec, m) || IsCaught(c, g, r'.vec, m)) &&
    (r'.top == r.top || TopSet(r'))
  }

  ghost predicate IsCaught(c: Ctx, g: Group, v: seq<int>, m: nat)
    requires 2 * m + 1 < |v|
  {
    0 <= v[2 * m] <= v[2 * m + 1] && Caught(c, g, m, v[2 * m], v[2 * m + 1])
  }

  predicate TopSet(r: Res) { 2 < r.top <= |r.vec| && r.top % 2 == 0 && r.vec[r.top - 2] >= 0 }

  ghost predicate AllHeld(c: Ctx, g: Group, r: Res, rs: seq<Res>) { forall i :: 0 <= i < |rs| ==> Held(c, g, r, rs[i]) }

  lemma HeldTrans(c: Ctx, g: Group, r: Res, r1: Res, r2: Res)
    requires Held(c, g, r, r1) && Held(c, g, r1, r2)
    ensures Held(c, g, r, r2)
  {
    hide Caught;
    forall m: nat | 2 * m + 1 < |r.vec| ensures SamePair(r.vec, r2.vec, m) || IsCaught(c, g, r2.vec, m) {
      assert SamePair(r.vec, r1.vec, m) || IsCaught(c, g, r1.vec, m);
      assert SamePair(r1.vec, r2.vec, m) || IsCaught(c, g, r2.vec, m);
    }
    if r2.top == r1.top && r1.top != r.top {
      var m: nat := r1.top / 2 - 1;
      assert 2 * m + 1 < |r.vec| && 2 * m == r1.top - 2;
      assert SamePair(r1.vec, r2.vec, m) || IsCaught(c, g, r2.vec, m);
    }
  }

  lemma HeldSame(c: Ctx, g: Group, r: Res, pos: nat)
    ensures Held(c, g, r, r.(pos := pos))
  {
  }

  // ---------- parts ----------

  /** What the items catch, g catches. */
  ghost predicate Part(c: Ctx, ns: Nodes, g: Group) {
    forall n: nat, lo: nat, hi: nat :: CaughtIn(c, ns, n, lo, hi) ==> Caught(c, g, n, lo, hi)
  }

  ghost predicate PartGroup(c: Ctx, h: Group, g: Group) {
    forall n: nat, lo: nat, hi: nat :: Caught(c, h, n, lo, hi) ==> Caught(c, g, n, lo, hi)
  }

  ghost predicate PartAlts(c: Ctx, a: Alts, g: Group) {
    forall n: nat, lo: nat, hi: nat :: CaughtAlts(c, a, n, lo, hi) ==> Caught(c, g, n, lo, hi)
  }

  lemma PartCons(c: Ctx, ns: Nodes, g: Group)
    requires Part(c, ns, g) && ns.Cons?
    ensures Part(c, ns.rest, g)
    ensures ns.n.Grp? ==> PartGroup(c, ns.n.g, g)
    ensures ns.n.Once? ==> Part(c, ns.n.ns, g)
  {
    forall n: nat, lo: nat, hi: nat | CaughtIn(c, ns.rest, n, lo, hi) ensures Caught(c, g, n, lo, hi) {
      assert CaughtIn(c, ns, n, lo, hi);
    }
    if ns.n.Grp? {
      forall n: nat, lo: nat, hi: nat | Caught(c, ns.n.g, n, lo, hi) ensures Caught(c, g, n, lo, hi) {
        assert CaughtNode(c, ns.n, n, lo, hi) && CaughtIn(c, ns, n, lo, hi);
      }
    }
    if ns.n.Once? {
      forall n: nat, lo: nat, hi: nat | CaughtIn(c, ns.n.ns, n, lo, hi) ensures Caught(c, g, n, lo, hi) {
        assert CaughtNode(c, ns.n, n, lo, hi) && CaughtIn(c, ns, n, lo, hi);
      }
    }
  }

  lemma PartBranches(c: Ctx, h: Group, g: Group)
    requires PartGroup(c, h, g)
    ensures Part(c, h.b, g) && PartAlts(c, h.more, g)
  {
    forall n: nat, lo: nat, hi: nat | CaughtIn(c, h.b, n, lo, hi) ensures Caught(c, g, n, lo, hi) { assert Caught(c, h, n, lo, hi); }
    forall n: nat, lo: nat, hi: nat | CaughtAlts(c, h.more, n, lo, hi) ensures Caught(c, g, n, lo, hi) { assert Caught(c, h, n, lo, hi); }
  }

  lemma PartAlt(c: Ctx, a: Alts, g: Group)
    requires PartAlts(c, a, g) && a.Alt?
    ensures Part(c, a.b, g) && PartAlts(c, a.more, g)
  {
    forall n: nat, lo: nat, hi: nat | CaughtIn(c, a.b, n, lo, hi) ensures Caught(c, g, n, lo, hi) { assert CaughtAlts(c, a, n, lo, hi); }
    forall n: nat, lo: nat, hi: nat | CaughtAlts(c, a.more, n, lo, hi) ensures Caught(c, g, n, lo, hi) { assert CaughtAlts(c, a, n, lo, hi); }
  }

  // ---------- along the ways ----------

  lemma {:induction false} NodesHeld(c: Ctx, g: Group, ns: Nodes, r: Res)
    requires r.pos <= |c.s| && Part(c, ns, g)
    ensures AllHeld(c, g, r, AllNodes(c, ns, r))
    decreases |c.s| - r.pos, ns, 1
  {
    hide Held, Each, AllNode, Part;
    if ns.Nil? {
      HeldSame(c, g, r, r.pos);
    } else {
      PartCons(c, ns, g);
      NodeHeld(c, g, ns.n, r);
      EachHeld(c, g, ns.rest, r, r.pos, AllNode(c, ns.n, r));
    }
  }

  lemma {:induction false} EachHeld(c: Ctx, g: Group, ns: Nodes, r: Res, lo: nat, rs: seq<Res>)
    requires r.pos <= lo <= |c.s| && Good(c, lo, rs) && AllHeld(c, g, r, rs) && Part(c, ns, g)
    ensures AllHeld(c, g, r, Each(c, ns, lo, rs))
    decreases |c.s| - lo, ns, 2, |rs|
  {
    hide Held, AllNodes, Part;
    if rs != [] {
      var r1 := rs[0];
      var out := AllNodes(c, ns, r1);
      NodesHeld(c, g, ns, r1);
      forall i | 0 <= i < |out| ensures Held(c, g, r, out[i]) { HeldTrans(c, g, r, r1, out[i]); }
      EachHeld(c, g, ns, r, lo, rs[1..]);
    }
  }

  lemma {:induction false} NodeHeld(c: Ctx, g: Group, n: Node, r: Res)
    requires r.pos <= |c.s| && (n.Grp? ==> PartGroup(c, n.g, g)) && (n.Once? ==> Part(c, n.ns, g))
    ensures AllHeld(c, g, r, AllNode(c, n, r))
    decreases |c.s| - r.pos, n, 0
  {
    hide Held, AllGroup, KindRuns, Part, PartGroup, AllNodes;
    HeldSame(c, g, r, r.pos);
    if n.Grp? {
      GroupHeld(c, g, n.g, r);
      assert r == r.(pos := r.pos);
    } else if n.Once? {
      NodesHeld(c, g, n.ns, r);
    } else {
      forall pos: nat ensures Held(c, g, r, r.(pos := pos)) { HeldSame(c, g, r, pos); }
      assert r == r.(pos := r.pos);
    }
  }

  lemma {:induction false} GroupHeld(c: Ctx, g: Group, h: Group, r: Res)
    requires r.pos <= |c.s| && PartGroup(c, h, g)
    ensures AllHeld(c, g, r, AllGroup(c, h, r))
    decreases |c.s| - r.pos, h, 3
  {
    hide Held, AllNodes, AllAlts, AfterKet, Part, PartAlts, PartGroup, EndsOnce;
    PartBranches(c, h, g);
    NodesHeld(c, g, h.b, r);
    AltsHeld(c, g, h.more, r);
    OnceEnds(c, h, r);
    KetHeld(c, g, h, r, r.pos, AllNodes(c, h.b, r) + AllAlts(c, h.more, r));
  }

  lemma {:induction false} AltsHeld(c: Ctx, g: Group, a: Alts, r: Res)
    requires r.pos <= |c.s| && PartAlts(c, a, g)
    ensures AllHeld(c, g, r, AllAlts(c, a, r))
    decreases |c.s| - r.pos, a, 1
  {
    hide Held, AllNodes, Part, PartAlts;
    if a.Alt? {
      PartAlt(c, a, g);
      NodesHeld(c, g, a.b, r);
      AltsHeld(c, g, a.more, r);
    }
  }

  lemma WayEnds(c: Ctx, ns: Nodes, r: Res)
    requires r.pos <= |c.s|
    ensures forall x :: x in AllNodes(c, ns, r) ==> Ends(c, ns, r.pos, x.pos)
  {
    BareNodes(c, ns, r);
    hide AllNodes;
    var rs := AllNodes(c, ns, r);
    forall i | 0 <= i < |rs| ensures Ends(c, ns, r.pos, rs[i].pos) { assert Bare(rs)[i] == At0(rs[i].pos); }
  }

  /** Every way to the ket of h is one through a branch. */
  lemma OnceEnds(c: Ctx, h: Group, r: Res)
    requires r.pos <= |c.s|
    ensures var rs := AllNodes(c, h.b, r) + AllAlts(c, h.more, r);
      forall i :: 0 <= i < |rs| ==> EndsOnce(c, h, r.pos, rs[i].pos)
  {
    WayEnds(c, h.b, r);
    AltEnds(c, h.more, r);
    hide AllNodes, AllAlts, EndsAlts, Ends;
    var x, y := AllNodes(c, h.b, r), AllAlts(c, h.more, r);
    assert forall z :: z in x + y ==> z in x || z in y;
  }

  lemma {:induction false} AltEnds(c: Ctx, a: Alts, r: Res)
    requires r.pos <= |c.s|
    ensures forall x :: x in AllAlts(c, a, r) ==> EndsAlts(c, a, r.pos, x.pos)
    decreases a
  {
    if a.Alt? {
      WayEnds(c, a.b, r);
      AltEnds(c, a.more, r);
      hide AllNodes, Ends;
      var x, y := AllNodes(c, a.b, r), AllAlts(c, a.more, r);
      assert forall z :: z in x + y ==> z in x || z in y;
    }
  }

  lemma CloseHeld(c: Ctx, g: Group, h: Group, r: Res, start: nat, r1: Res)
    requires Held(c, g, r, r1) && PartGroup(c, h, g) && start <= r1.pos && start <= |c.s| && EndsOnce(c, h, start, r1.pos)
    ensures Held(c, g, r, Close(h.cap, start, r1))
  {
    var r2 := Close(h.cap, start, r1);
    assert Caught(c, h, h.cap, start, r1.pos);
    hide Caught, EndsOnce;
    forall m: nat | 2 * m + 1 < |r.vec| ensures SamePair(r.vec, r2.vec, m) || IsCaught(c, g, r2.vec, m) {
      assert SamePair(r.vec, r1.vec, m) || IsCaught(c, g, r1.vec, m);
      if m == h.cap && h.cap != 0 { assert r2.vec[2 * m] == start && r2.vec[2 * m + 1] == r1.pos; }
    }
  }

  lemma {:induction false} KetHeld(c: Ctx, g: Group, h: Group, r: Res, start: nat, rs: seq<Res>)
    requires r.pos <= start <= |c.s| && Good(c, start, rs) && AllHeld(c, g, r, rs) && PartGroup(c, h, g)
    requires forall i :: 0 <= i < |rs| ==> EndsOnce(c, h, start, rs[i].pos)
    ensures AllHeld(c, g, r, AfterKet(c, h, start, rs))
    decreases |c.s| - start, h, 2, |rs|
  {
    hide Held, AllGroup, PartGroup, EndsOnce;
    if rs != [] {
      var r1 := Close(h.cap, start, rs[0]);
      CloseHeld(c, g, h, r, start, rs[0]);
      if h.ket != Ket && start < rs[0].pos {
        var again := AllGroup(c, h, r1);
        GroupHeld(c, g, h, r1);
        forall i | 0 <= i < |again| ensures Held(c, g, r, again[i]) { HeldTrans(c, g, r, r1, again[i]); }
      }
      KetHeld(c, g, h, r, start, rs[1..]);
    }
  }

  // ---------- a match ----------

  lemma PartSelf(c: Ctx, g: Group)
    ensures PartGroup(c, g, g)
  {
  }

  /** A way of matching a pattern: every pair is as before, or text that one of the groups
      of that number matches; and the last group counted is set. */
  lemma WayHeld(c: Ctx, b: Branch, more: Branches, vec: seq<int>, p: nat, x: Res)
    requires Compilable(b, more, c.nocase) && p <= |c.s| && x in WaysAt(c, b, more, vec, p)
    ensures var g := Compile(b, more, c.nocase); Held(c, g, Res(p, vec, 2), x) && Follows(CapsGroup(g), Res(p, vec, 2), x)
  {
    var g, r := Compile(b, more, c.nocase), Res(p, vec, 2);
    var rs := AllGroup(c, g, r);
    CompilableOk(c, b, more, r);
    GroupFollows(c, g, r);
    PartSelf(c, g);
    GroupHeld(c, g, g, r);
    FilterOf(c, p, Matches(c, b, more, r));
    hide AllGroup, Matches, Filter, Compilable, Compile, CapsGroup, Held, Follows, PartGroup;
    var i :| 0 <= i < |rs| && rs[i] == x;
    assert Held(c, g, r, rs[i]);
    assert Follows(CapsGroup(g), r, rs[i]);
  }

  /** What a vector shows of a way from the captures base: the pairs of groups are as they
      were or hold text that the groups match, and count is one more than the number of the
      last group that is set. */
  ghost predicate Shown(c: Ctx, g: Group, base: seq<int>, count: int, vec: seq<int>) {
    |base| <= |vec| &&
    (forall m: nat :: 0 < m && 2 * m + 1 < |base| ==>
       (vec[2 * m] == base[2 * m] && vec[2 * m + 1] == base[2 * m + 1]) || IsCaught(c, g, vec, m)) &&
    (forall i :: 2 <= i && 2 * count <= i < |base| ==> vec[i] == base[i]) && count >= 1 &&
    (count > 1 ==> 2 * count <= |base| && vec[2 * count - 2] >= 0)
  }

  lemma WayShown(c: Ctx, g: Group, base: seq<int>, p: nat, x: Res, vec: seq<int>)
    requires var r := Res(p, base, 2); Held(c, g, r, x) && Follows(CapsGroup(g), r, x)
    requires |base| % 2 == 0 && |base| <= |vec| && forall i :: 2 <= i < |base| ==> vec[i] == x.vec[i]
    ensures Shown(c, g, base, x.top / 2, vec) && x.top >= 2
  {
    hide Caught, CapsGroup;
    forall m: nat | 0 < m && 2 * m + 1 < |base|
      ensures (vec[2 * m] == base[2 * m] && vec[2 * m + 1] == base[2 * m + 1]) || IsCaught(c, g, vec, m)
    {
      assert SamePair(base, x.vec, m) || IsCaught(c, g, x.vec, m);
    }
    forall i | 2 <= i && 2 * (x.top / 2) <= i < |base| ensures vec[i] == base[i] {
      var m: nat := i / 2;
      assert SamePair(base, x.vec, m) || 2 * m < x.top;
    }
  }
}
