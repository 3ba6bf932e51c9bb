/** Exactly when items consume a byte in every way, where could_be_empty_branch says
    so, and the conditions of the matcher that follow for compiled patterns. */
module Emptiness {
  import opened Bytes
  import opened Code
  import opened Semantics
  import opened Shape
  import opened Pattern
  import opened Lowering

  // ---------- items that consume ----------

  lemma {:induction false} RunsAtLeast(c: Ctx, x: Single, min: nat, max: int, lazy: bool, pos: nat)
    requires pos <= |c.s|
    ensures forall i :: 0 <= i < |Runs(c, x, min, max, lazy, pos)| ==> pos + min <= Runs(c, x, min, max, lazy, pos)[i]
    decreases |c.s| - pos
  {
    if min > 0 && max != 0 && AcceptsAt(c, x, pos) {
      RunsAtLeast(c, x, min - 1, if max < 0 then max else max - 1, lazy, pos + 1);
    }
  }

  /** Later items never step back. */
  lemma {:induction false} EachKeeps(c: Ctx, ns: Nodes, lo: nat, m: nat, rs: seq<Res>)
    requires lo <= |c.s| && Good(c, lo, rs) && Good(c, m, rs)
    ensures Good(c, m, Each(c, ns, lo, rs))
    decreases |rs|
  {
    hide AllNodes;
    if rs != [] { EachKeeps(c, ns, lo, m, rs[1..]); }
  }

  lemma {:induction false} KetKeeps(c: Ctx, g: Group, start: nat, m: nat, rs: seq<Res>)
    requires start <= |c.s| && Good(c, start, rs) && Good(c, m, rs)
    ensures Good(c, m, AfterKet(c, g, start, rs))
    decreases |rs|
  {
    if rs != [] {
      KetKeeps(c, g, start, m, rs[1..]);
      hide AllGroup, AfterKet;
      assert Good(c, m, KetChoice(c, g, start, rs[0]));
    }
  }

  /** Items that are not hollow consume a byte, however they match. */
  lemma {:induction false} NodesConsume(c: Ctx, ns: Nodes, r: Res)
    requires !Hollow(ns) && r.pos <= |c.s|
    ensures Good(c, r.pos + 1, AllNodes(c, ns, r))
    decreases ns, 1
  {
    var n, rest := ns.n, ns.rest;
    var rs := AllNode(c, n, r);
    assert AllNodes(c, ns, r) == Each(c, rest, r.pos, rs);
    hide AllNodes;
    if !HollowNode(n) {
      NodeConsumes(c, n, r);
      EachKeeps(c, rest, r.pos, r.pos + 1, rs);
    } else {
      EachConsumes(c, rest, r.pos, r.pos, rs);
    }
  }

  lemma {:induction false} EachConsumes(c: Ctx, ns: Nodes, lo: nat, p: nat, rs: seq<Res>)
    requires !Hollow(ns) && lo <= |c.s| && Good(c, lo, rs) && Good(c, p, rs)
    ensures Good(c, p + 1, Each(c, ns, lo, rs))
    decreases ns, 2, |rs|
  {
    hide AllNodes, Hollow;
    if rs != [] {
      NodesConsume(c, ns, rs[0]);
      EachConsumes(c, ns, lo, p, rs[1..]);
    }
  }

  lemma {:induction false} NodeConsumes(c: Ctx, n: Node, r: Res)
    requires !HollowNode(n) && r.pos <= |c.s|
    ensures Good(c, r.pos + 1, AllNode(c, n, r))
    decreases n, 0
  {
    match n
    case One(x) =>
    case Rep(x, k) => RunsAtLeast(c, x, k.Min(), k.Max(), k.M() == Lazy, r.pos);
    case Grp(_, g) =>
      NodesConsume(c, g.b, r);
      AltsConsume(c, g.more, r);
      hide AllNodes, AllAlts, AfterKet;
      KetKeeps(c, g, r.pos, r.pos + 1, AllNodes(c, g.b, r) + AllAlts(c, g.more, r));
    case Once(ns) => NodesConsume(c, ns, r);
  }

  lemma {:induction false} AltsConsume(c: Ctx, a: Alts, r: Res)
    requires !HollowAlts(a) && r.pos <= |c.s|
    ensures Good(c, r.pos + 1, AllAlts(c, a, r))
    decreases a, 1
  {
    hide AllNodes;
    if a.Alt? {
      NodesConsume(c, a.b, r);
      AltsConsume(c, a.more, r);
    }
  }

  /** A bracket that is not hollow never matches empty. */
  lemma GroupConsumes(c: Ctx, g: Group)
    requires !HollowGroup(g)
    ensures NonEmpty(c, g)
  {
    forall r: Res | r.pos <= |c.s|
      ensures Good(c, r.pos + 1, AllNodes(c, g.b, r)) && Good(c, r.pos + 1, AllAlts(c, g.more, r))
    {
      NodesConsume(c, g.b, r);
      AltsConsume(c, g.more, r);
    }
  }

  // ---------- the converse ----------

  /** The subject and options under which every hollow item matches empty. */
  function Blank(nocase: bool): Ctx { Ctx([], nocase, false, false, false, false, false) }

  lemma {:induction false} EmptyWay(ns: Nodes, nocase: bool, r: Res)
    requires CodedNodes(ns, nocase) && Hollow(ns) && r.pos == 0
    ensures AllNodes(Blank(nocase), ns, r) != []
    decreases ns, 1
  {
    if ns.Cons? {
      var c := Blank(nocase);
      EmptyNodeWay(ns.n, nocase, r);
      var rs := AllNode(c, ns.n, r);
      EmptyWay(ns.rest, nocase, rs[0]);
      assert AllNodes(c, ns, r) == Each(c, ns.rest, 0, rs);
      hide AllNodes;
      assert AllNodes(c, ns.rest, rs[0]) <= Each(c, ns.rest, 0, rs);
    }
  }

  lemma {:induction false} EmptyNodeWay(n: Node, nocase: bool, r: Res)
    requires CodedNode(n, nocase) && HollowNode(n) && r.pos == 0
    ensures AllNode(Blank(nocase), n, r) != []
    decreases n, 0
  {
    if n.Grp? && n.z == NoPrefix {
      var c, g := Blank(nocase), n.g;
      if Hollow(g.b) { EmptyWay(g.b, nocase, r); } else { EmptyAltsWay(g.more, nocase, r); }
      assert AllGroup(c, g, r) == AfterKet(c, g, 0, AllNodes(c, g.b, r) + AllAlts(c, g.more, r));
      hide AllNodes, AllAlts;
      KetStays(c, g, AllNodes(c, g.b, r) + AllAlts(c, g.more, r));
    } else if n.Once? {
      EmptyWay(n.ns, nocase, r);
    }
  }

  lemma KetStays(c: Ctx, g: Group, rs: seq<Res>)
    requires c.s == [] && Good(c, 0, rs) && rs != []
    ensures AfterKet(c, g, 0, rs) != []
  {
    assert KetChoice(c, g, 0, rs[0]) == [Close(g.cap, 0, rs[0])];
  }

  lemma {:induction false} EmptyAltsWay(a: Alts, nocase: bool, r: Res)
    requires CodedAlts(a, nocase) && HollowAlts(a) && r.pos == 0
    ensures AllAlts(Blank(nocase), a, r) != []
    decreases a, 1
  {
    if Hollow(a.b) { EmptyWay(a.b, nocase, r); } else { EmptyAltsWay(a.more, nocase, r); }
  }

  /** Whatever the subject and the options, every way consumes a byte. */
  ghost predicate Consumes(ns: Nodes, nocase: bool) {
    forall c: Ctx, r: Res :: c.nocase == nocase && r.pos <= |c.s| ==> Good(c, r.pos + 1, AllNodes(c, ns, r))
  }

  /** Items consume a byte in every way exactly if they are not hollow. */
  lemma ConsumesIff(ns: Nodes, nocase: bool)
    requires CodedNodes(ns, nocase)
    ensures Consumes(ns, nocase) <==> !Hollow(ns)
  {
    hide AllNodes, Hollow;
    if Hollow(ns) {
      var c, r := Blank(nocase), Res(0, [], 0);
      EmptyWay(ns, nocase, r);
      assert AllNodes(c, ns, r)[0].pos <= |c.s|;
      assert !Good(c, r.pos + 1, AllNodes(c, ns, r));
    } else {
      forall c: Ctx, r: Res | c.nocase == nocase && r.pos <= |c.s| ensures Good(c, r.pos + 1, AllNodes(c, ns, r)) {
        NodesConsume(c, ns, r);
      }
    }
  }

  lemma GroupConsumesIff(g: Group, nocase: bool)
    requires CodedGroup(g, nocase)
    ensures (forall c: Ctx :: c.nocase == nocase ==> NonEmpty(c, g)) <==> !HollowGroup(g)
  {
    hide AllNodes, AllAlts, Hollow, HollowAlts;
    if HollowGroup(g) {
      var c, r := Blank(nocase), Res(0, [], 0);
      if Hollow(g.b) {
        EmptyWay(g.b, nocase, r);
        assert AllNodes(c, g.b, r)[0].pos <= |c.s|;
      } else {
        EmptyAltsWay(g.more, nocase, r);
        assert AllAlts(c, g.more, r)[0].pos <= |c.s|;
      }
      assert !NonEmpty(c, g);
    } else {
      forall c: Ctx | c.nocase == nocase ensures NonEmpty(c, g) { GroupConsumes(c, g); }
    }
  }

  // ---------- what the scan misses ----------

  /** Every S bracket that the scan can meet has a zero prefix. */
  predicate PrefixedS(ns: Nodes) {
    match ns
    case Nil => true
    case Cons(n, rest) =>
      (n.Grp? && n.z == NoPrefix ==> !n.g.s && PrefixedS(n.g.b) && PrefixedSAlts(n.g.more)) &&
      (n.Once? ==> PrefixedS(n.ns)) && PrefixedS(rest)
  }

  predicate PrefixedSAlts(a: Alts) {
    match a
    case NoAlt => true
    case Alt(b, more) => PrefixedS(b) && PrefixedSAlts(more)
  }

  /** There the scan is exact. */
  lemma {:induction false} ScanExact(ns: Nodes)
    requires PrefixedS(ns)
    ensures CouldBeEmpty(ns) <==> Hollow(ns)
    decreases ns, 1
  {
    if ns.Cons? {
      if ns.n.Grp? && ns.n.z == NoPrefix {
        ScanExact(ns.n.g.b);
        AltsScanExact(ns.n.g.more);
        assert HollowNode(ns.n) == HollowGroup(ns.n.g);
      }
      if ns.n.Once? { ScanExact(ns.n.ns); }
      ScanExact(ns.rest);
    }
  }

  lemma {:induction false} AltsScanExact(a: Alts)
    requires PrefixedSAlts(a)
    ensures AltsCouldBeEmpty(a) <==> HollowAlts(a)
    decreases a, 1
  {
    if a.Alt? {
      ScanExact(a.b);
      AltsScanExact(a.more);
    }
  }

  /** About an S bracket without a prefix it is wrong exactly if the bracket could match
      empty, and so could what follows it, but not through the first branch. */
  lemma ScanMissesIff(g: Group, rest: Nodes)
    requires g.s && PrefixedS(g.b)
    ensures var ns := Cons(Grp(NoPrefix, g), rest);
      Hollow(ns) && !CouldBeEmpty(ns) <==> HollowAlts(g.more) && !Hollow(g.b) && Hollow(rest)
  {
    ScanExact(g.b);
    assert HollowNode(Grp(NoPrefix, g)) == HollowGroup(g);
    hide Hollow, HollowAlts;
  }

  /** Every S bracket without a prefix that could match empty can do so through its first
      branch. */
  predicate Told(ns: Nodes) {
    match ns
    case Nil => true
    case Cons(n, rest) =>
      (n.Grp? && n.z == NoPrefix ==>
        if n.g.s then Told(n.g.b) && (HollowAlts(n.g.more) ==> Hollow(n.g.b)) else Told(n.g.b) && ToldAlts(n.g.more)) &&
      (n.Once? ==> Told(n.ns)) && Told(rest)
  }

  predicate ToldAlts(a: Alts) {
    match a
    case NoAlt => true
    case Alt(b, more) => Told(b) && ToldAlts(more)
  }

  /** Then the scan misses nothing that could match empty. */
  lemma {:induction false} ScanSound(ns: Nodes)
    requires Told(ns) && Hollow(ns)
    ensures CouldBeEmpty(ns)
    decreases ns, 1
  {
    if ns.Cons? {
      if ns.n.Grp? && ns.n.z == NoPrefix {
        assert HollowGroup(ns.n.g);
        if Hollow(ns.n.g.b) { ScanSound(ns.n.g.b); } else { AltsScanSound(ns.n.g.more); }
      }
      if ns.n.Once? { ScanSound(ns.n.ns); }
      ScanSound(ns.rest);
    }
  }

  lemma {:induction false} AltsScanSound(a: Alts)
    requires ToldAlts(a) && HollowAlts(a)
    ensures AltsCouldBeEmpty(a)
    decreases a, 1
  {
    if Hollow(a.b) { ScanSound(a.b); } else { AltsScanSound(a.more); }
  }

  /** Without the prefix the scan fails: (?:a|)+ is taken for non-empty, and matches
      empty at the end of every subject. */
  lemma ScanMissesPlainS(c: Ctx, vec: seq<int>)
    ensures var g := Group(0, true, Cons(One(Lit(97, false)), Nil), Alt(Nil, NoAlt), KetRMax);
      var r := Res(|c.s|, vec, 2);
      g.s == GroupCouldBeEmpty(g) && !CouldBeEmpty(Cons(Grp(NoPrefix, g), Nil)) && Hollow(Cons(Grp(NoPrefix, g), Nil)) &&
      AllNodes(c, Cons(Grp(NoPrefix, g), Nil), r) == [r]
  {
    var g := Group(0, true, Cons(One(Lit(97, false)), Nil), Alt(Nil, NoAlt), KetRMax);
    var r := Res(|c.s|, vec, 2);
    assert AllNode(c, One(Lit(97, false)), r) == [];
    assert Each(c, Nil, r.pos, []) == [];
    assert AllNodes(c, Cons(One(Lit(97, false)), Nil), r) == [];
    assert AllNodes(c, Nil, r) == [r] && AllAlts(c, NoAlt, r) == [];
    assert AllAlts(c, g.more, r) == [r];
    assert [r][1..] == [];
    assert AfterKet(c, g, r.pos, [r]) == [r];
    assert AllNodes(c, g.b, r) + AllAlts(c, g.more, r) == [r];
    assert AllGroup(c, g, r) == [r];
    assert Each(c, Nil, r.pos, [r]) == [r];
  }

  // ---------- compiled patterns ----------

  /** The scan has missed no repeated bracket, and between two S brackets, one inside the
      other, a byte is consumed. */
  predicate TameGroup(g: Group) { GuardedGroup(g) && CalmGroup(g, true) }

  /** The S form is given to repeating brackets by the scan, and capture numbers do
      not recur inside themselves: all lie above lo and up to hi. */
  predicate Formed(ns: Nodes, lo: nat, hi: nat) {
    match ns
    case Nil => true
    case Cons(n, rest) => (n.Grp? ==> FormedGroup(n.g, lo, hi)) && (n.Once? ==> Formed(n.ns, lo, hi)) && Formed(rest, lo, hi)
  }

  predicate FormedGroup(g: Group, lo: nat, hi: nat) {
    var inner := if g.cap == 0 then lo else g.cap;
    (g.ket != Ket ==> g.s == GroupCouldBeEmpty(g)) && (g.ket == Ket ==> !g.s) &&
    (g.cap != 0 ==> lo < g.cap <= hi) && Formed(g.b, inner, hi) && FormedAlts(g.more, inner, hi)
  }

  predicate FormedAlts(a: Alts, lo: nat, hi: nat) {
    match a
    case NoAlt => true
    case Alt(b, more) => Formed(b, lo, hi) && FormedAlts(more, lo, hi)
  }

  lemma {:induction false} FormedWiden(ns: Nodes, lo: nat, hi: nat, lo': nat, hi': nat)
    requires Formed(ns, lo, hi) && lo' <= lo && hi <= hi'
    ensures Formed(ns, lo', hi')
    decreases ns, 1
  {
    if ns.Cons? {
      if ns.n.Grp? { FormedGroupWiden(ns.n.g, lo, hi, lo', hi'); }
      if ns.n.Once? { FormedWiden(ns.n.ns, lo, hi, lo', hi'); }
      FormedWiden(ns.rest, lo, hi, lo', hi');
    }
  }

  lemma {:induction false} FormedGroupWiden(g: Group, lo: nat, hi: nat, lo': nat, hi': nat)
    requires FormedGroup(g, lo, hi) && lo' <= lo && hi <= hi'
    ensures FormedGroup(g, lo', hi')
    decreases g, 0
  {
    var inner, inner' := if g.cap == 0 then lo else g.cap, if g.cap == 0 then lo' else g.cap;
    FormedWiden(g.b, inner, hi, inner', hi');
    FormedAltsWiden(g.more, inner, hi, inner', hi');
  }

  lemma {:induction false} FormedAltsWiden(a: Alts, lo: nat, hi: nat, lo': nat, hi': nat)
    requires FormedAlts(a, lo, hi) && lo' <= lo && hi <= hi'
    ensures FormedAlts(a, lo', hi')
    decreases a, 1
  {
    if a.Alt? {
      FormedWiden(a.b, lo, hi, lo', hi');
      FormedAltsWiden(a.more, lo, hi, lo', hi');
    }
  }

  lemma {:induction false} FormedCaps(ns: Nodes, lo: nat, hi: nat)
    requires Formed(ns, lo, hi)
    ensures forall m :: m in Caps(ns) ==> lo < m <= hi
    decreases ns, 1
  {
    if ns.Cons? {
      if ns.n.Grp? { FormedGroupCaps(ns.n.g, lo, hi); }
      if ns.n.Once? { FormedCaps(ns.n.ns, lo, hi); }
      FormedCaps(ns.rest, lo, hi);
    }
  }

  lemma {:induction false} FormedGroupCaps(g: Group, lo: nat, hi: nat)
    requires FormedGroup(g, lo, hi)
    ensures forall m :: m in CapsGroup(g) ==> lo < m <= hi
    ensures g.cap != 0 ==> g.cap !in Caps(g.b) + CapsAlts(g.more)
    decreases g, 0
  {
    var inner := if g.cap == 0 then lo else g.cap;
    FormedCaps(g.b, inner, hi);
    FormedAltsCaps(g.more, inner, hi);
  }

  lemma {:induction false} FormedAltsCaps(a: Alts, lo: nat, hi: nat)
    requires FormedAlts(a, lo, hi)
    ensures forall m :: m in CapsAlts(a) ==> lo < m <= hi
    decreases a, 1
  {
    if a.Alt? {
      FormedCaps(a.b, lo, hi);
      FormedAltsCaps(a.more, lo, hi);
    }
  }

  /** Formed and guarded items meet the conditions of the matcher. */
  lemma {:induction false} FormedOk(c: Ctx, ns: Nodes, lo: nat, hi: nat)
    requires Formed(ns, lo, hi) && Guarded(ns)
    ensures OkNodes(c, ns)
    decreases ns, 1
  {
    hide CouldBeEmpty, Hollow, HollowAlts, NonEmpty;
    if ns.Cons? {
      if ns.n.Grp? { FormedGroupOk(c, ns.n.g, lo, hi); }
      FormedOk(c, ns.rest, lo, hi);
    }
  }

  lemma {:induction false} FormedGroupOk(c: Ctx, g: Group, lo: nat, hi: nat)
    requires FormedGroup(g, lo, hi) && GuardedGroup(g)
    ensures OkGroup(c, g)
    decreases g, 0
  {
    hide CouldBeEmpty, Hollow, HollowAlts, NonEmpty;
    var inner := if g.cap == 0 then lo else g.cap;
    FormedOk(c, g.b, inner, hi);
    FormedAltsOk(c, g.more, inner, hi);
    FormedGroupCaps(g, lo, hi);
    if g.ket != Ket && !g.s { GroupConsumes(c, g); }
  }

  lemma {:induction false} FormedAltsOk(c: Ctx, a: Alts, lo: nat, hi: nat)
    requires FormedAlts(a, lo, hi) && GuardedAlts(a)
    ensures OkAlts(c, a)
    decreases a, 1
  {
    if a.Alt? {
      FormedOk(c, a.b, lo, hi);
      FormedAltsOk(c, a.more, lo, hi);
    }
  }

  // ---------- lowering gives coded, formed items ----------

  /** Items as the compiler writes them: coded and formed, and valid where plain says so. */
  predicate Lowered(ns: Nodes, lo: nat, hi: nat, nocase: bool, plain: bool) {
    Formed(ns, lo, hi) && CodedNodes(ns, nocase) && (plain ==> ValidNodes(ns, nocase))
  }

  predicate LoweredGroup(g: Group, lo: nat, hi: nat, nocase: bool, plain: bool) {
    FormedGroup(g, lo, hi) && CodedGroup(g, nocase) && (plain ==> ValidGroup(g, nocase))
  }

  predicate LoweredAlts(a: Alts, lo: nat, hi: nat, nocase: bool, plain: bool) {
    FormedAlts(a, lo, hi) && CodedAlts(a, nocase) && (plain ==> ValidAlts(a, nocase))
  }

  predicate LoweredNode(n: Node, lo: nat, hi: nat, nocase: bool, plain: bool) {
    (n.Grp? ==> FormedGroup(n.g, lo, hi)) && (n.Once? ==> Formed(n.ns, lo, hi)) && CodedNode(n, nocase) &&
    (plain ==> ValidNode(n, nocase))
  }

  lemma LoweredCons(n: Node, rest: Nodes, lo: nat, hi: nat, nocase: bool, plain: bool)
    ensures Lowered(Cons(n, rest), lo, hi, nocase, plain) <==> LoweredNode(n, lo, hi, nocase, plain) && Lowered(rest, lo, hi, nocase, plain)
    ensures Lowered(Nil, lo, hi, nocase, plain)
    ensures n.Grp? ==> LoweredNode(n, lo, hi, nocase, plain) == LoweredGroup(n.g, lo, hi, nocase, plain)
    ensures n.Once? && Lowered(n.ns, lo, hi, nocase, false) && !plain ==> LoweredNode(n, lo, hi, nocase, plain)
  {
    hide FormedGroup, CodedGroup, ValidGroup, ValidSingle, ValidKind;
  }

  lemma RepeatFormed(x: Single, q: Quant, tail: Nodes, lo: nat, hi: nat, nocase: bool, plain: bool)
    requires ValidSingle(x, nocase) && ValidQuant(q) && !Wrapped(x, q)
    requires Lowered(tail, lo, hi, nocase, plain)
    ensures Lowered(RepeatNodes(x, q, tail), lo, hi, nocase, plain)
  {
    hide Lowered, ValidSingle;
    var ns := RepeatNodes(x, q, tail);
    if ns != tail {
      LoweredCons(ns.n, ns.rest, lo, hi, nocase, plain);
      if ns.rest != tail { LoweredCons(ns.rest.n, ns.rest.rest, lo, hi, nocase, plain); }
    }
  }

  lemma AtomFormed(x: Single, q: Quant, tail: Nodes, lo: nat, hi: nat, nocase: bool, plain: bool)
    requires ValidSingle(x, nocase) && ValidQuant(q) && Lowered(tail, lo, hi, nocase, plain) && (plain ==> !Wrapped(x, q))
    ensures Lowered(AtomNodes(x, q, tail), lo, hi, nocase, plain)
  {
    hide RepeatNodes, Lowered, LoweredNode;
    if Wrapped(x, q) {
      var ns := RepeatNodes(x, Greedily(q), Nil);
      LoweredCons(Once(ns), Nil, lo, hi, nocase, false);
      RepeatFormed(x, Greedily(q), Nil, lo, hi, nocase, false);
      LoweredCons(Once(ns), tail, lo, hi, nocase, false);
    } else {
      RepeatFormed(x, q, tail, lo, hi, nocase, plain);
    }
  }

  lemma {:induction false} CopiesFormed(k: nat, g: Group, tail: Nodes, lo: nat, hi: nat, nocase: bool, plain: bool)
    requires LoweredGroup(g, lo, hi, nocase, plain) && Lowered(tail, lo, hi, nocase, plain)
    ensures Lowered(Copies(k, g, tail), lo, hi, nocase, plain)
    decreases k
  {
    hide Lowered, LoweredNode, LoweredGroup;
    if k > 0 {
      CopiesFormed(k - 1, g, tail, lo, hi, nocase, plain);
      LoweredCons(Grp(NoPrefix, g), Copies(k - 1, g, tail), lo, hi, nocase, plain);
    }
  }

  lemma PlainLowered(b: Nodes, lo: nat, hi: nat, nocase: bool, plain: bool)
    requires Lowered(b, lo, hi, nocase, plain)
    ensures LoweredGroup(Group(0, false, b, NoAlt, Ket), lo, hi, nocase, plain)
  {
    assert FormedAlts(NoAlt, lo, hi) && CodedAlts(NoAlt, nocase) && ValidAlts(NoAlt, nocase);
    hide Formed, CodedNodes, ValidNodes;
  }

  lemma {:induction false} NestedFormed(k: nat, g: Group, mode: Mode, lo: nat, hi: nat, nocase: bool, plain: bool)
    requires k > 0 && LoweredGroup(g, lo, hi, nocase, plain)
    ensures var n := Nested(k, g, mode); n.Grp? && LoweredGroup(n.g, lo, hi, nocase, plain)
    decreases k
  {
    hide Lowered, LoweredNode, LoweredGroup;
    if k > 1 {
      NestedFormed(k - 1, g, mode, lo, hi, nocase, plain);
      var inner := Nested(k - 1, g, mode);
      LoweredCons(inner, Nil, lo, hi, nocase, plain);
      LoweredCons(Grp(NoPrefix, g), Cons(inner, Nil), lo, hi, nocase, plain);
      PlainLowered(Cons(Grp(NoPrefix, g), Cons(inner, Nil)), lo, hi, nocase, plain);
    }
  }

  lemma UnlimitedLowered(g: Group, mode: Mode, lo: nat, hi: nat, nocase: bool, plain: bool)
    requires LoweredGroup(g, lo, hi, nocase, plain)
    ensures LoweredGroup(Unlimited(g, mode), lo, hi, nocase, plain)
  {
    hide Formed, CodedNodes, ValidNodes, FormedAlts, CodedAlts, ValidAlts, CouldBeEmpty;
  }

  lemma CopyFormed(g: Group, q: Quant, tail: Nodes, lo: nat, hi: nat, nocase: bool, plain: bool)
    requires LoweredGroup(g, lo, hi, nocase, plain) && ValidQuant(q) && Lowered(tail, lo, hi, nocase, plain)
    ensures Lowered(CopyNodes(g, q, tail), lo, hi, nocase, plain)
  {
    hide Lowered, LoweredNode, LoweredGroup, Unlimited, Copies, Nested;
    match q
    case NoQ => LoweredCons(Grp(NoPrefix, g), tail, lo, hi, nocase, plain);
    case Q(min, max, mode) =>
      var u := Unlimited(g, mode);
      UnlimitedLowered(g, mode, lo, hi, nocase, plain);
      if max == 0 {
        LoweredCons(Grp(SkipZero, g), tail, lo, hi, nocase, plain);
      } else if max < 0 {
        LoweredCons(Grp(ZeroPrefix(mode), u), tail, lo, hi, nocase, plain);
        LoweredCons(Grp(NoPrefix, u), tail, lo, hi, nocase, plain);
        if min > 0 { CopiesFormed(min - 1, g, Cons(Grp(NoPrefix, u), tail), lo, hi, nocase, plain); }
      } else if max > min {
        NestedFormed(max - min, g, mode, lo, hi, nocase, plain);
        LoweredCons(Nested(max - min, g, mode), tail, lo, hi, nocase, plain);
        CopiesFormed(min, g, Cons(Nested(max - min, g, mode), tail), lo, hi, nocase, plain);
      } else {
        CopiesFormed(min, g, tail, lo, hi, nocase, plain);
      }
  }

  lemma GroupFormed(g: Group, q: Quant, tail: Nodes, lo: nat, hi: nat, nocase: bool, plain: bool)
    requires LoweredGroup(g, lo, hi, nocase, plain) && ValidQuant(q) && Lowered(tail, lo, hi, nocase, plain)
    requires plain ==> !WrappedGroup(q)
    ensures Lowered(GroupNodes(g, q, tail), lo, hi, nocase, plain)
  {
    hide Lowered, LoweredNode, LoweredGroup, CopyNodes;
    if WrappedGroup(q) {
      var ns := CopyNodes(g, Greedily(q), Nil);
      LoweredCons(Once(ns), Nil, lo, hi, nocase, false);
      CopyFormed(g, Greedily(q), Nil, lo, hi, nocase, false);
      LoweredCons(Once(ns), tail, lo, hi, nocase, false);
    } else {
      CopyFormed(g, q, tail, lo, hi, nocase, plain);
    }
  }

  lemma Weakened(ns: Nodes, lo: nat, hi: nat, nocase: bool, plain: bool, lo': nat, plain': bool)
    requires Lowered(ns, lo, hi, nocase, plain) && lo' <= lo && (plain' ==> plain)
    ensures Lowered(ns, lo', hi, nocase, plain')
  {
    FormedWiden(ns, lo, hi, lo', hi);
    hide Formed, CodedNodes, ValidNodes;
  }

  lemma AltsWeakened(a: Alts, lo: nat, hi: nat, nocase: bool, plain: bool, lo': nat, plain': bool)
    requires LoweredAlts(a, lo, hi, nocase, plain) && lo' <= lo && (plain' ==> plain)
    ensures LoweredAlts(a, lo', hi, nocase, plain')
  {
    FormedAltsWiden(a, lo, hi, lo', hi);
    hide FormedAlts, CodedAlts, ValidAlts;
  }

  lemma {:induction false} LowerFormed(b: Branch, n: nat, hi: nat, nocase: bool)
    requires ValidBranch(b, nocase) && n + Count(b) <= hi < 0x1_0000
    ensures Lowered(LowerBranch(b, n, nocase), n, hi, nocase, NoAtomic(b))
    decreases b, 2
  {
    hide AtomNodes, GroupNodes, LowerGroup, Lowered, LoweredGroup, NoAtomic;
    if b.Then? && NoAtomic(b) { NoAtomicParts(b); }
    match b
    case Empty => LoweredCons(Zero(OP_SOD), Nil, n, hi, nocase, NoAtomic(b));
    case Then(i, rest) =>
      var tail, plain := LowerBranch(rest, n + CountItem(i), nocase), NoAtomic(b);
      LowerFormed(rest, n + CountItem(i), hi, nocase);
      Weakened(tail, n + CountItem(i), hi, nocase, NoAtomic(rest), n, plain);
      match i
      case Assertion(op) => LoweredCons(Zero(op), tail, n, hi, nocase, plain);
      case Atom(x, q) => AtomFormed(x, Possess(x, q, rest), tail, n, hi, nocase, plain);
      case Paren(_, _, _, q) =>
        LowerGroupFormed(i, n, hi, nocase);
        GroupWeakened(LowerGroup(i, n, nocase), n, hi, nocase, NoAtomic(i.b) && NoAtomicMore(i.more), plain);
        GroupFormed(LowerGroup(i, n, nocase), q, tail, n, hi, nocase, plain);
  }

  lemma NoAtomicParts(b: Branch)
    requires b.Then? && NoAtomic(b)
    ensures NoAtomic(b.rest) && NoAtomicItem(b.i)
    ensures b.i.Atom? ==> !Wrapped(b.i.x, b.i.q)
    ensures b.i.Paren? ==> !WrappedGroup(b.i.q) && NoAtomic(b.i.b) && NoAtomicMore(b.i.more)
  {
    assert b == Then(b.i, b.rest) && NoAtomicItem(b.i);
  }

  lemma GroupWeakened(g: Group, lo: nat, hi: nat, nocase: bool, plain: bool, plain': bool)
    requires LoweredGroup(g, lo, hi, nocase, plain) && (plain' ==> plain)
    ensures LoweredGroup(g, lo, hi, nocase, plain')
  {
    hide FormedGroup, CodedGroup, ValidGroup;
  }

  lemma {:induction false} LowerMoreFormed(m: Branches, n: nat, hi: nat, nocase: bool)
    requires ValidMore(m, nocase) && n + CountMore(m) <= hi < 0x1_0000
    ensures LoweredAlts(LowerMore(m, n, nocase), n, hi, nocase, NoAtomicMore(m))
    decreases m, 2
  {
    hide LowerBranch, Formed, ValidNodes, CodedNodes;
    if m.Or? {
      LowerFormed(m.b, n, hi, nocase);
      LowerMoreFormed(m.more, n + Count(m.b), hi, nocase);
      FormedAltsWiden(LowerMore(m.more, n + Count(m.b), nocase), n + Count(m.b), hi, n, hi);
    }
  }

  /** A bracket around lowered branches. */
  lemma BracketLowered(g: Group, lo: nat, hi: nat, nocase: bool, plain: bool, plain': bool)
    requires g.ket == Ket && !g.s && g.cap < 0x1_0000 && (g.cap != 0 ==> lo < g.cap <= hi)
    requires var inner := if g.cap == 0 then lo else g.cap;
      Lowered(g.b, inner, hi, nocase, plain) && LoweredAlts(g.more, inner, hi, nocase, plain')
    ensures LoweredGroup(g, lo, hi, nocase, plain && plain')
  {
    hide Formed, CodedNodes, ValidNodes, FormedAlts, CodedAlts, ValidAlts;
  }

  lemma {:induction false} LowerGroupFormed(i: Item, n: nat, hi: nat, nocase: bool)
    requires ValidItem(i, nocase) && i.Paren? && n + CountItem(i) <= hi < 0x1_0000
    ensures LoweredGroup(LowerGroup(i, n, nocase), n, hi, nocase, NoAtomic(i.b) && NoAtomicMore(i.more))
    decreases i, 1
  {
    hide Lowered, LoweredAlts, LoweredGroup, LowerBranch, LowerMore, NoAtomic, NoAtomicMore, Count, CountMore;
    var m := Inside(i, n);
    LowerFormed(i.b, m, hi, nocase);
    LowerMoreFormed(i.more, m + Count(i.b), hi, nocase);
    AltsWeakened(LowerMore(i.more, m + Count(i.b), nocase), m + Count(i.b), hi, nocase, NoAtomicMore(i.more), m, NoAtomicMore(i.more));
    BracketLowered(LowerGroup(i, n, nocase), n, hi, nocase, NoAtomic(i.b), NoAtomicMore(i.more));
  }

  lemma CompiledFormed(b: Branch, more: Branches, nocase: bool)
    requires ValidBranch(b, nocase) && ValidMore(more, nocase) && Count(b) + CountMore(more) < 0x1_0000
    ensures LoweredGroup(Compile(b, more, nocase), 0, Count(b) + CountMore(more), nocase, NoAtomic(b) && NoAtomicMore(more))
  {
    hide Lowered, LoweredAlts, LoweredGroup, LowerBranch, LowerMore, NoAtomic, NoAtomicMore, Count, CountMore;
    var hi := Count(b) + CountMore(more);
    LowerFormed(b, 0, hi, nocase);
    LowerMoreFormed(more, Count(b), hi, nocase);
    AltsWeakened(LowerMore(more, Count(b), nocase), Count(b), hi, nocase, NoAtomicMore(more), 0, NoAtomicMore(more));
    BracketLowered(Compile(b, more, nocase), 0, hi, nocase, NoAtomic(b), NoAtomicMore(more));
  }

  /** Compiled patterns that are guarded meet the conditions of the matcher. */
  lemma CompileOk(c: Ctx, b: Branch, more: Branches)
    requires ValidBranch(b, c.nocase) && ValidMore(more, c.nocase) && Count(b) + CountMore(more) < 0x1_0000
    requires NoAtomic(b) && NoAtomicMore(more) && GuardedGroup(Compile(b, more, c.nocase))
    ensures ValidGroup(Compile(b, more, c.nocase), c.nocase) && OkGroup(c, Compile(b, more, c.nocase))
  {
    hide FormedGroup, ValidGroup, CodedGroup, Compile, OkGroup;
    CompiledFormed(b, more, c.nocase);
    FormedGroupOk(c, Compile(b, more, c.nocase), 0, Count(b) + CountMore(more));
  }
}
