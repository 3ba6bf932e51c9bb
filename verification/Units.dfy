/** Where items can match on a subject of characters, in byte mode and in UTF-8 mode. In
    byte mode the characters are the bytes. */
module Units {
  import opened Bytes
  import opened Code
  import opened Semantics
  import opened Language
  import StateLanguage
  import Utf8

  /** A subject and the options that a match depends on. */
  datatype Text = Text(u: seq<nat>, utf8: bool, multiline: bool, endonly: bool, notbol: bool, noteol: bool)

  predicate Legal(utf8: bool, ch: nat) { if utf8 then ch <= Utf8.MAX_CODE else ch < 256 }

  predicate LegalText(t: Text) { forall i :: 0 <= i < |t.u| ==> Legal(t.utf8, t.u[i]) }

  /** The byte with which the character begins in the subject. */
  function Lead(utf8: bool, ch: nat): Byte
    requires Legal(utf8, ch)
  {
    if utf8 then Utf8.Encode(ch)[0] else ch
  }

  /** An item accepts a character: beyond 255 there are no letters, digits or spaces, and
      only the classes that are marked for it accept anything. */
  predicate Takes(x: Single, ch: nat) {
    if ch < 256 then Accepts(x, ch)
    else match x
      case Lit(_, _) => false
      case NotLit(_, _) => true
      case Type(op) => op in {OP_NOT_DIGIT, OP_NOT_WHITESPACE, OP_NOT_WORDCHAR, OP_ANY, OP_ALLANY}
      case Class(neg, _) => neg
  }

  predicate TakesAt(t: Text, x: Single, p: nat) { p < |t.u| && Takes(x, t.u[p]) }

  /** Anchors look at the ends of the subject and at newlines only. */
  function Lines(t: Text): Ctx {
    Ctx(seq(|t.u|, i requires 0 <= i < |t.u| => if t.u[i] < 256 then t.u[i] else 0),
        false, t.multiline, t.endonly, t.notbol, t.noteol, false)
  }

  /** The items can match from p to e. */
  ghost predicate Reaches(t: Text, ns: Nodes, p: nat, e: nat)
    requires p <= |t.u|
    decreases |t.u| - p, ns, 1
  {
    match ns
    case Nil => e == p
    case Cons(n, rest) => exists q: nat :: p <= q <= |t.u| && NodeReaches(t, n, p, q) && Reaches(t, rest, q, e)
  }

  /** An atomic bracket can match no more than its items. */
  ghost predicate NodeReaches(t: Text, n: Node, p: nat, q: nat)
    requires p <= |t.u|
    decreases |t.u| - p, n, 0
  {
    match n
    case Zero(op) => q == p && ZeroOk(Lines(t), op, p)
    case One(x) => q == p + 1 && TakesAt(t, x, p)
    case Rep(x, k) => RepReaches(t, x, k, p, q)
    case Grp(NoPrefix, g) => GroupReaches(t, g, p, q)
    case Grp(SkipZero, g) => q == p
    case Grp(_, g) => q == p || GroupReaches(t, g, p, q)
    case Once(ns) => Reaches(t, ns, p, q)
  }

  predicate RepReaches(t: Text, x: Single, k: Kind, p: nat, q: nat) {
    p <= q <= |t.u| && (forall j :: p <= j < q ==> Takes(x, t.u[j])) &&
    k.Min() <= q - p && (k.Max() < 0 || q - p <= k.Max()) &&
    (k.M() == Possessive ==> !TakesAt(t, x, q) || q - p == k.Max())
  }

  ghost predicate OnceReaches(t: Text, g: Group, p: nat, e: nat)
    requires p <= |t.u|
    decreases |t.u| - p, g, 2
  {
    Reaches(t, g.b, p, e) || AltsReach(t, g.more, p, e)
  }

  ghost predicate AltsReach(t: Text, a: Alts, p: nat, e: nat)
    requires p <= |t.u|
    decreases |t.u| - p, a, 1
  {
    a.Alt? && (Reaches(t, a.b, p, e) || AltsReach(t, a.more, p, e))
  }

  ghost predicate GroupReaches(t: Text, g: Group, p: nat, e: nat)
    requires p <= |t.u|
    decreases |t.u| - p, g, 3
  {
    OnceReaches(t, g, p, e) ||
    (g.ket != Ket && exists q: nat :: p < q <= |t.u| && OnceReaches(t, g, p, q) && GroupReaches(t, g, q, e))
  }

  // ---------- matches lie in the subject ----------

  lemma {:induction false} ReachesUp(t: Text, ns: Nodes, p: nat, e: nat)
    requires p <= |t.u| && Reaches(t, ns, p, e)
    ensures p <= e <= |t.u|
    decreases ns
  {
    hide NodeReaches;
    if ns.Cons? {
      var q: nat :| p <= q <= |t.u| && NodeReaches(t, ns.n, p, q) && Reaches(t, ns.rest, q, e);
      ReachesUp(t, ns.rest, q, e);
    }
  }

  lemma {:induction false} AltsUp(t: Text, a: Alts, p: nat, e: nat)
    requires p <= |t.u| && AltsReach(t, a, p, e)
    ensures p <= e <= |t.u|
    decreases a
  {
    hide Reaches;
    if Reaches(t, a.b, p, e) { ReachesUp(t, a.b, p, e); } else { AltsUp(t, a.more, p, e); }
  }

  lemma OnceUp(t: Text, g: Group, p: nat, e: nat)
    requires p <= |t.u| && OnceReaches(t, g, p, e)
    ensures p <= e <= |t.u|
  {
    hide Reaches, AltsReach;
    if Reaches(t, g.b, p, e) { ReachesUp(t, g.b, p, e); } else { AltsUp(t, g.more, p, e); }
  }

  lemma {:induction false} GroupUp(t: Text, g: Group, p: nat, e: nat)
    requires p <= |t.u| && GroupReaches(t, g, p, e)
    ensures p <= e <= |t.u|
    decreases |t.u| - p
  {
    hide OnceReaches;
    if OnceReaches(t, g, p, e) {
      OnceUp(t, g, p, e);
    } else {
      var q: nat :| p < q <= |t.u| && OnceReaches(t, g, p, q) && GroupReaches(t, g, q, e);
      GroupUp(t, g, q, e);
    }
  }

  // ---------- byte mode ----------

  function ByteText(c: Ctx): (t: Text)
    ensures |t.u| == |c.s| && LegalText(t) && !t.utf8
  {
    Text(seq(|c.s|, i requires 0 <= i < |c.s| => c.s[i]), false, c.multiline, c.endonly, c.notbol, c.noteol)
  }

  lemma SameLines(c: Ctx, op: Byte, p: nat)
    ensures ZeroOk(Lines(ByteText(c)), op, p) == ZeroOk(c, op, p)
  {
    assert Lines(ByteText(c)).s == c.s;
  }

  /** In byte mode, whatever the ordered ways reach is reached. */
  lemma {:induction false} EndsReach(c: Ctx, ns: Nodes, p: nat, e: nat)
    requires p <= |c.s| && Ends(c, ns, p, e)
    ensures Reaches(ByteText(c), ns, p, e)
    decreases |c.s| - p, ns, 1
  {
    if ns.Nil? {
      BareStays(c, ns, p, At0(e));
    } else {
      assert ns == Cons(ns.n, ns.rest);
      hide AllNode, Ends, NodeReaches;
      EndsCons(c, ns.n, ns.rest, p, e);
      var q: nat :| q <= |c.s| && At0(q) in AllNode(c, ns.n, At0(p)) && Ends(c, ns.rest, q, e);
      BareNodeStays(c, ns.n, p, At0(q));
      NodeEndsReach(c, ns.n, p, q);
      EndsReach(c, ns.rest, q, e);
    }
  }

  lemma {:induction false} NodeEndsReach(c: Ctx, n: Node, p: nat, q: nat)
    requires p <= |c.s| && At0(q) in AllNode(c, n, At0(p))
    ensures NodeReaches(ByteText(c), n, p, q)
    decreases |c.s| - p, n, 0
  {
    hide AllNodes, AllGroup, KindRuns, GroupReaches, Reaches, ZeroOk;
    match n
    case Zero(op) => SameLines(c, op, p);
    case One(x) =>
    case Rep(x, k) => StateLanguage.RepEnds(c, x, k, p, q);
    case Grp(z, g) => if At0(q) in AllGroup(c, g, At0(p)) { GroupEndsReach(c, g, p, q); }
    case Once(ns) => EndsReach(c, ns, p, q);
  }

  lemma {:induction false} GroupEndsReach(c: Ctx, g: Group, p: nat, e: nat)
    requires p <= |c.s| && EndsGroup(c, g, p, e)
    ensures GroupReaches(ByteText(c), g, p, e)
    decreases |c.s| - p, g, 3
  {
    hide EndsGroup, EndsOnce, OnceReaches, AllGroup;
    EndsGroupIff(c, g, p, e);
    if EndsOnce(c, g, p, e) {
      OnceEndsReach(c, g, p, e);
    } else {
      var q: nat :| p < q <= |c.s| && EndsOnce(c, g, p, q) && EndsGroup(c, g, q, e);
      OnceEndsReach(c, g, p, q);
      GroupEndsReach(c, g, q, e);
    }
  }

  lemma {:induction false} OnceEndsReach(c: Ctx, g: Group, p: nat, e: nat)
    requires p <= |c.s| && EndsOnce(c, g, p, e)
    ensures OnceReaches(ByteText(c), g, p, e)
    decreases |c.s| - p, g, 2
  {
    hide Ends, EndsAlts, Reaches, AltsReach;
    if Ends(c, g.b, p, e) { EndsReach(c, g.b, p, e); } else { AltsEndsReach(c, g.more, p, e); }
  }

  lemma {:induction false} AltsEndsReach(c: Ctx, a: Alts, p: nat, e: nat)
    requires p <= |c.s| && EndsAlts(c, a, p, e)
    ensures AltsReach(ByteText(c), a, p, e)
    decreases |c.s| - p, a, 1
  {
    hide Ends, Reaches;
    if Ends(c, a.b, p, e) { EndsReach(c, a.b, p, e); } else { AltsEndsReach(c, a.more, p, e); }
  }

  // ---------- literals of one byte ----------

  /** In UTF-8 mode a character from 128 on is several bytes of code, which the items do
      not have. */
  predicate OneByte(x: Single, utf8: bool) { utf8 && (x.Lit? || x.NotLit?) ==> x.c < 128 }

  predicate OneByteNodes(ns: Nodes, utf8: bool) {
    match ns
    case Nil => true
    case Cons(n, rest) =>
      (n.One? || n.Rep? ==> OneByte(n.x, utf8)) && (n.Grp? ==> OneByteGroup(n.g, utf8)) &&
      (n.Once? ==> OneByteNodes(n.ns, utf8)) && OneByteNodes(rest, utf8)
  }

  predicate OneByteGroup(g: Group, utf8: bool) { OneByteNodes(g.b, utf8) && OneByteAlts(g.more, utf8) }

  predicate OneByteAlts(a: Alts, utf8: bool) { a.Alt? ==> OneByteNodes(a.b, utf8) && OneByteAlts(a.more, utf8) }

  lemma {:induction false} ByteModeOneByte(ns: Nodes)
    ensures OneByteNodes(ns, false)
    decreases ns, 1
  {
    if ns.Cons? {
      if ns.n.Grp? { ByteModeGroup(ns.n.g); }
      if ns.n.Once? { ByteModeOneByte(ns.n.ns); }
      ByteModeOneByte(ns.rest);
    }
  }

  lemma {:induction false} ByteModeGroup(g: Group)
    ensures OneByteGroup(g, false)
    decreases g, 0
  {
    ByteModeOneByte(g.b);
    ByteModeAlts(g.more);
  }

  lemma {:induction false} ByteModeAlts(a: Alts)
    ensures OneByteAlts(a, false)
    decreases a, 1
  {
    if a.Alt? {
      ByteModeOneByte(a.b);
      ByteModeAlts(a.more);
    }
  }

  // ---------- the bytes of a UTF-8 subject ----------

  /** Nothing stands for what is no character. */
  function Encoded(u: seq<nat>): seq<Byte> {
    if u == [] then [] else (if Legal(true, u[0]) then Utf8.Encode(u[0]) else []) + Encoded(u[1..])
  }

  /** The subject has the first byte of its character p behind the bytes of those before. */
  lemma {:induction false} LeadStands(u: seq<nat>, p: nat)
    requires (forall i :: 0 <= i < |u| ==> Legal(true, u[i])) && p < |u|
    ensures var at := |Encoded(u[..p])|; at < |Encoded(u)| && Encoded(u)[at] == Lead(true, u[p])
    decreases p
  {
    hide Utf8.Encode;
    if p > 0 {
      LeadStands(u[1..], p - 1);
      assert u[..p][1..] == u[1..][..p - 1];
    }
  }
}
