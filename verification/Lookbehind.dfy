/** find_fixedlength, and why a lookbehind assertion may step back by what it finds. */
module Lookbehind {
  import opened Bytes
  import opened Code
  import opened Layout
  import opened Semantics
  import opened Repeats
  import opened Language
  import opened Scan
  import FirstByte

  // ---------- what the scan computes ----------

  /** Fixed length of a list of items, or -1. */
  function Fixed(ns: Nodes): (n: int)
    ensures n >= -1
  {
    match ns
    case Nil => 0
    case Cons(n, rest) =>
      if FixedNode(n) < 0 || Fixed(rest) < 0 then -1 else FixedNode(n) + Fixed(rest)
  }

  function FixedNode(n: Node): (k: int)
    ensures k >= -1
  {
    match n
    case Zero(_) => 0
    case One(_) => 1
    case Rep(x, Exact(k)) => if x.NotLit? then -1 else k
    case Rep(_, Range(_, min, max)) => if min == (if max < 0 then 0 else max) then min else -1
    case Grp(NoPrefix, g) => if g.s then -1 else FixedAlts(g.more, Fixed(g.b))
    case _ => -1
  }

  /** Further branches must have the length of those before. */
  function FixedAlts(a: Alts, length: int): (n: int)
    requires length >= -1
    ensures n >= -1
  {
    match a
    case NoAlt => length
    case Alt(b, more) => if length >= 0 && Fixed(b) == length then FixedAlts(more, length) else -1
  }

  // ---------- it is what every match consumes ----------

  /** No bracket that takes a byte repeats without limit. */
  predicate Single(ns: Nodes) {
    match ns
    case Nil => true
    case Cons(n, rest) =>
      (n.Grp? ==> (n.g.ket == Ket || FixedAlts(n.g.more, Fixed(n.g.b)) == 0) && Single(n.g.b) && SingleAlts(n.g.more)) &&
      (n.Rep? && n.k.Range? ==> n.k.max >= 0 || n.k.min > 0) && Single(rest)
  }

  predicate SingleAlts(a: Alts) { a.Alt? ==> Single(a.b) && SingleAlts(a.more) }

  lemma {:induction false} RunsAtMost(c: Ctx, x: Single, min: nat, max: int, lazy: bool, pos: nat, i: nat)
    requires pos <= |c.s| && i < |Runs(c, x, min, max, lazy, pos)| && max >= 0
    ensures Runs(c, x, min, max, lazy, pos)[i] <= pos + max
    decreases |c.s| - pos
  {
    var more := if max != 0 && AcceptsAt(c, x, pos)
      then Runs(c, x, if min > 0 then min - 1 else 0, max - 1, lazy, pos + 1) else [];
    var e := Runs(c, x, min, max, lazy, pos)[i];
    if e != pos {
      var j: nat :| j < |more| && more[j] == e;
      RunsAtMost(c, x, if min > 0 then min - 1 else 0, max - 1, lazy, pos + 1, j);
    }
  }

  lemma RepFixed(c: Ctx, x: Single, k: Kind, n: nat, p: nat, q: nat)
    requires p <= |c.s| && At0(q) in AllNode(c, Rep(x, k), At0(p)) && k.Min() == n == k.Max()
    ensures q == p + n
  {
    var l := Runs(c, x, k.Min(), k.Max(), k.M() == Lazy, p);
    var ps := KindRuns(c, x, k, p);
    var i :| 0 <= i < |ps| && At0(p).(pos := ps[i]) == At0(q);
    FirstByte.RunsAccept(c, x, k.Min(), k.Max(), k.M() == Lazy, p, i);
    RunsAtMost(c, x, k.Min(), k.Max(), k.M() == Lazy, p, i);
  }

  lemma {:induction false} FixedIsExact(c: Ctx, ns: Nodes, p: nat, e: nat)
    requires Single(ns) && Fixed(ns) >= 0 && p <= |c.s| && Ends(c, ns, p, e)
    ensures e == p + Fixed(ns)
    decreases ns, 1
  {
    if ns.Cons? {
      EndsCons(c, ns.n, ns.rest, p, e);
      hide Ends, AllNode;
      var q: nat :| q <= |c.s| && At0(q) in AllNode(c, ns.n, At0(p)) && Ends(c, ns.rest, q, e);
      NodeIsExact(c, ns.n, p, q);
      FixedIsExact(c, ns.rest, q, e);
    }
  }

  lemma {:induction false} NodeIsExact(c: Ctx, n: Node, p: nat, q: nat)
    requires Single(Cons(n, Nil)) && FixedNode(n) >= 0 && p <= |c.s| && At0(q) in AllNode(c, n, At0(p))
    ensures q == p + FixedNode(n)
    decreases n, 0
  {
    match n
    case Zero(_) =>
    case One(_) =>
    case Rep(x, k) => RepFixed(c, x, k, FixedNode(n), p, q);
    case Grp(_, g) =>
      assert EndsGroup(c, g, p, q);
      EndsGroupIff(c, g, p, q);
      hide Ends, EndsGroup, AllNode;
      var once: nat := q;
      if !EndsOnce(c, g, p, q) { once :| p < once <= |c.s| && EndsOnce(c, g, p, once) && EndsGroup(c, g, once, q); }
      OnceIsExact(c, g, p, once);
  }

  lemma {:induction false} OnceIsExact(c: Ctx, g: Group, p: nat, q: nat)
    requires Single(g.b) && SingleAlts(g.more) && FixedAlts(g.more, Fixed(g.b)) >= 0 && p <= |c.s| && EndsOnce(c, g, p, q)
    ensures q == p + FixedAlts(g.more, Fixed(g.b))
    decreases g, 0
  {
    hide Ends;
    FirstFixed(g.more, Fixed(g.b));
    if Ends(c, g.b, p, q) { FixedIsExact(c, g.b, p, q); } else { AltIsExact(c, g.more, Fixed(g.b), p, q); }
  }

  lemma FirstFixed(a: Alts, length: int)
    requires length >= -1 && FixedAlts(a, length) >= 0
    ensures FixedAlts(a, length) == length
    ensures a.Alt? ==> Fixed(a.b) == length
  {
  }

  lemma {:induction false} AltIsExact(c: Ctx, a: Alts, length: int, p: nat, e: nat)
    requires length >= -1 && SingleAlts(a) && FixedAlts(a, length) >= 0 && p <= |c.s| && EndsAlts(c, a, p, e)
    ensures e == p + length
    decreases a, 1
  {
    hide Ends;
    FirstFixed(a, length);
    if Ends(c, a.b, p, e) { FixedIsExact(c, a.b, p, e); } else { AltIsExact(c, a.more, length, p, e); }
  }

  // ---------- and only then ----------

  ghost predicate Takes(x: Single) { exists b: Byte :: Accepts(x, b) }

  /** No anchors, and no item that accepts nothing. */
  ghost predicate Free(ns: Nodes) {
    match ns
    case Nil => true
    case Cons(n, rest) =>
      !n.Zero? && (n.One? || n.Rep? ==> Takes(n.x)) && (n.Grp? ==> Free(n.g.b) && FreeAlts(n.g.more)) && Free(rest)
  }

  ghost predicate FreeAlts(a: Alts) { a.Alt? ==> Free(a.b) && FreeAlts(a.more) }

  /** The text w stands at p. */
  predicate Stands(c: Ctx, p: nat, w: seq<Byte>) { p + |w| <= |c.s| && c.s[p..p + |w|] == w }

  /** Wherever the text w stands, the items match it. */
  ghost predicate Text(ns: Nodes, w: seq<Byte>) {
    forall c: Ctx, p: nat :: Stands(c, p, w) ==> Ends(c, ns, p, p + |w|)
  }

  ghost predicate NodeText(n: Node, w: seq<Byte>) {
    forall c: Ctx, p: nat :: Stands(c, p, w) ==> At0(p + |w|) in AllNode(c, n, At0(p))
  }

  lemma StandsParts(c: Ctx, p: nat, u: seq<Byte>, v: seq<Byte>)
    requires Stands(c, p, u + v)
    ensures Stands(c, p, u) && Stands(c, p + |u|, v)
  {
    var w := c.s[p..p + |u + v|];
    assert c.s[p..p + |u|] == w[..|u|] && c.s[p + |u|..p + |u| + |v|] == w[|u|..];
  }

  lemma TextCons(n: Node, rest: Nodes, u: seq<Byte>, v: seq<Byte>)
    requires NodeText(n, u) && Text(rest, v)
    ensures Text(Cons(n, rest), u + v)
  {
    hide Ends, AllNode;
    forall c: Ctx, p: nat | Stands(c, p, u + v) ensures Ends(c, Cons(n, rest), p, p + |u + v|) {
      StandsParts(c, p, u, v);
      EndsCons(c, n, rest, p, p + |u + v|);
      assert At0(p + |u|) in AllNode(c, n, At0(p)) && Ends(c, rest, p + |u|, p + |u| + |v|);
    }
  }

  /** A text of one branch is a text of the bracket, */
  lemma GroupText(g: Group, w: seq<Byte>)
    requires Text(g.b, w) || AltsText(g.more, w)
    ensures NodeText(Grp(NoPrefix, g), w)
  {
    hide Ends, EndsGroup, EndsAlts, AltsText;
    forall c: Ctx, p: nat | Stands(c, p, w) ensures At0(p + |w|) in AllNode(c, Grp(NoPrefix, g), At0(p)) {
      if AltsText(g.more, w) { AltsTextAt(g.more, w, c, p); }
      EndsGroupIff(c, g, p, p + |w|);
      EndsGroupIs(c, g, p, p + |w|);
    }
  }

  lemma EndsGroupIs(c: Ctx, g: Group, p: nat, e: nat)
    requires p <= |c.s|
    ensures EndsGroup(c, g, p, e) <==> At0(e) in AllNode(c, Grp(NoPrefix, g), At0(p))
  {
    hide AllGroup;
  }

  ghost predicate AltsText(a: Alts, w: seq<Byte>) { a.Alt? && (Text(a.b, w) || AltsText(a.more, w)) }

  lemma {:induction false} AltsTextAt(a: Alts, w: seq<Byte>, c: Ctx, p: nat)
    requires AltsText(a, w) && Stands(c, p, w)
    ensures EndsAlts(c, a, p, p + |w|)
    decreases a
  {
    hide Ends;
    if !Text(a.b, w) { AltsTextAt(a.more, w, c, p); }
  }

  /** and twice that text one of a bracket that repeats. */
  lemma TwiceText(g: Group, w: seq<Byte>)
    requires Text(g.b, w) && g.ket != Ket && |w| > 0
    ensures NodeText(Grp(NoPrefix, g), w + w)
  {
    hide Ends, EndsGroup;
    forall c: Ctx, p: nat | Stands(c, p, w + w) ensures At0(p + |w + w|) in AllNode(c, Grp(NoPrefix, g), At0(p)) {
      StandsParts(c, p, w, w);
      var q := p + |w|;
      EndsGroupIff(c, g, q, q + |w|);
      EndsGroupIff(c, g, p, q + |w|);
      EndsGroupIs(c, g, p, q + |w|);
    }
  }

  /** k bytes that x accepts. */
  lemma RepText(n: Node, k: nat) returns (w: seq<Byte>)
    requires (n.One? && k == 1) || (n.Rep? && n.k.M() != Possessive && n.k.Min() <= k && (n.k.Max() < 0 || k <= n.k.Max()))
    requires Takes(n.x)
    ensures |w| == k && NodeText(n, w)
  {
    var b: Byte :| Accepts(n.x, b);
    w := seq(k, i => b);
    forall c: Ctx, p: nat | Stands(c, p, w) ensures At0(p + |w|) in AllNode(c, n, At0(p)) {
      forall j | p <= j < p + k ensures Accepts(n.x, c.s[j]) { assert c.s[p..p + k][j - p] == w[j - p]; }
      if n.Rep? {
        RunsReach(c, n.x, n.k.Min(), n.k.Max(), n.k.M() == Lazy, p, p + k);
        var ps := KindRuns(c, n.x, n.k, p);
        var i :| 0 <= i < |ps| && ps[i] == p + k;
        assert AtAll(At0(p), ps)[i] == At0(p + k);
      }
    }
  }

  /** Items of fixed length have a text of that length; */
  lemma {:induction false} SomeText(ns: Nodes, nocase: bool) returns (w: seq<Byte>)
    requires ValidNodes(ns, nocase) && Free(ns) && Fixed(ns) >= 0
    ensures |w| == Fixed(ns) && Text(ns, w)
    decreases ns, 1
  {
    hide Text, NodeText;
    if ns.Nil? {
      w := [];
      NilText();
    } else {
      var u := NodeSome(ns.n, nocase);
      var v := SomeText(ns.rest, nocase);
      TextCons(ns.n, ns.rest, u, v);
      w := u + v;
    }
  }

  lemma NilText()
    ensures Text(Nil, [])
  {
  }

  lemma {:induction false} NodeSome(n: Node, nocase: bool) returns (w: seq<Byte>)
    requires ValidNode(n, nocase) && Free(Cons(n, Nil)) && FixedNode(n) >= 0
    ensures |w| == FixedNode(n) && NodeText(n, w)
    decreases n, 0
  {
    hide Text, NodeText;
    if n.Grp? {
      FirstFixed(n.g.more, Fixed(n.g.b));
      w := SomeText(n.g.b, nocase);
      GroupText(n.g, w);
    } else {
      w := RepText(n, FixedNode(n));
    }
  }

  /** and a longer one as well, if a bracket that takes a byte repeats. */
  lemma {:induction false} LongText(ns: Nodes, nocase: bool) returns (w: seq<Byte>)
    requires ValidNodes(ns, nocase) && Free(ns) && Fixed(ns) >= 0 && !Single(ns)
    ensures |w| > Fixed(ns) && Text(ns, w)
    decreases ns, 1
  {
    hide Text, NodeText;
    var u, v;
    if Single(Cons(ns.n, Nil)) {
      u := NodeSome(ns.n, nocase);
      v := LongText(ns.rest, nocase);
    } else {
      u := NodeLong(ns.n, nocase);
      v := SomeText(ns.rest, nocase);
    }
    TextCons(ns.n, ns.rest, u, v);
    w := u + v;
  }

  lemma {:induction false} NodeLong(n: Node, nocase: bool) returns (w: seq<Byte>)
    requires ValidNode(n, nocase) && Free(Cons(n, Nil)) && FixedNode(n) >= 0 && !Single(Cons(n, Nil))
    ensures |w| > FixedNode(n) && NodeText(n, w)
    decreases n, 0
  {
    hide Text, NodeText;
    if n.Rep? {
      w := RepText(n, 1);
    } else {
      var g := n.g;
      FirstFixed(g.more, Fixed(g.b));
      if !Single(g.b) {
        w := LongText(g.b, nocase);
        GroupText(g, w);
      } else if !SingleAlts(g.more) {
        w := AltsLong(g.more, Fixed(g.b), nocase);
        GroupText(g, w);
      } else {
        var u := SomeText(g.b, nocase);
        TwiceText(g, u);
        w := u + u;
      }
    }
  }

  lemma {:induction false} AltsLong(a: Alts, length: nat, nocase: bool) returns (w: seq<Byte>)
    requires ValidAlts(a, nocase) && FreeAlts(a) && FixedAlts(a, length) >= 0 && !SingleAlts(a)
    ensures |w| > length && AltsText(a, w)
    decreases a, 1
  {
    hide Text;
    FirstFixed(a, length);
    if !Single(a.b) { w := LongText(a.b, nocase); } else { w := AltsLong(a.more, length, nocase); }
  }

  /** Whatever the subject, every way consumes exactly the fixed length. */
  ghost predicate Exact(ns: Nodes) {
    forall c: Ctx, p: nat, e: nat :: p <= |c.s| && Ends(c, ns, p, e) ==> e == p + Fixed(ns)
  }

  /** Without anchors the fixed length is exact if and only if no bracket that takes a
      byte repeats. (An anchor inside such a bracket may keep it from matching twice.) */
  lemma ExactIff(ns: Nodes, nocase: bool)
    requires ValidNodes(ns, nocase) && Free(ns) && Fixed(ns) >= 0
    ensures Exact(ns) <==> Single(ns)
  {
    hide Ends, Fixed, Single;
    if Single(ns) {
      forall c: Ctx, p: nat, e: nat | p <= |c.s| && Ends(c, ns, p, e) ensures e == p + Fixed(ns) { FixedIsExact(c, ns, p, e); }
    } else {
      var w := LongText(ns, nocase);
      var c := Ctx(w, nocase, false, false, false, false, false);
      assert Stands(c, 0, w);
      assert Ends(c, ns, 0, |w|);
    }
  }

  // ---------- when there is none ----------

  /** The items that the scan gives up on, wherever they stand: every repeat but an exact
      number or {n,n} of a class (no maximum is stored as 0), an exact number of characters
      other than a given one, a group that may be left out, and one that may match nothing. */
  predicate GivenUp(n: Node) {
    match n
    case Zero(_) => false
    case One(_) => false
    case Rep(x, k) => if k.Exact? then x.NotLit? else !k.Range? || k.min != if k.max < 0 then 0 else k.max
    case Grp(z, g) => z != NoPrefix || g.s || AnyGivenUp(g.b) || AnyGivenUpAlts(g.more)
    case Once(_) => true
  }

  predicate AnyGivenUp(ns: Nodes) { ns.Cons? && (GivenUp(ns.n) || AnyGivenUp(ns.rest)) }

  predicate AnyGivenUpAlts(a: Alts) { a.Alt? && (AnyGivenUp(a.b) || AnyGivenUpAlts(a.more)) }

  /** Other items have some text, of the fixed length if there is one. */
  lemma {:induction false} AnyText(ns: Nodes, nocase: bool) returns (w: seq<Byte>)
    requires ValidNodes(ns, nocase) && Free(ns) && !AnyGivenUp(ns)
    ensures Text(ns, w) && (Fixed(ns) >= 0 ==> |w| == Fixed(ns))
    decreases ns, 1
  {
    hide Text, NodeText;
    if ns.Nil? {
      w := [];
      NilText();
    } else {
      var u := NodeAny(ns.n, nocase);
      var v := AnyText(ns.rest, nocase);
      TextCons(ns.n, ns.rest, u, v);
      w := u + v;
    }
  }

  lemma {:induction false} NodeAny(n: Node, nocase: bool) returns (w: seq<Byte>)
    requires ValidNode(n, nocase) && Free(Cons(n, Nil)) && !GivenUp(n)
    ensures NodeText(n, w) && (FixedNode(n) >= 0 ==> |w| == FixedNode(n))
    decreases n, 0
  {
    hide Text, NodeText;
    if n.Grp? {
      w := AnyText(n.g.b, nocase);
      GroupText(n.g, w);
      if FixedNode(n) >= 0 { FirstFixed(n.g.more, Fixed(n.g.b)); }
    } else {
      w := RepText(n, if n.One? then 1 else n.k.Min());
    }
  }

  /** And if there is no fixed length, two texts of different lengths. */
  lemma {:induction false} TwoTexts(ns: Nodes, nocase: bool) returns (w: seq<Byte>, w': seq<Byte>)
    requires ValidNodes(ns, nocase) && Free(ns) && !AnyGivenUp(ns) && Fixed(ns) < 0
    ensures Text(ns, w) && Text(ns, w') && |w| != |w'|
    decreases ns, 1
  {
    hide Text, NodeText;
    if FixedNode(ns.n) < 0 {
      var u, u' := NodeTwo(ns.n, nocase);
      var v := AnyText(ns.rest, nocase);
      TextCons(ns.n, ns.rest, u, v);
      TextCons(ns.n, ns.rest, u', v);
      w, w' := u + v, u' + v;
    } else {
      var u := NodeAny(ns.n, nocase);
      var v, v' := TwoTexts(ns.rest, nocase);
      TextCons(ns.n, ns.rest, u, v);
      TextCons(ns.n, ns.rest, u, v');
      w, w' := u + v, u + v';
    }
  }

  lemma {:induction false} NodeTwo(n: Node, nocase: bool) returns (w: seq<Byte>, w': seq<Byte>)
    requires ValidNode(n, nocase) && Free(Cons(n, Nil)) && !GivenUp(n) && FixedNode(n) < 0
    ensures NodeText(n, w) && NodeText(n, w') && |w| != |w'|
    decreases n, 0
  {
    hide Text, NodeText;
    if Fixed(n.g.b) < 0 {
      w, w' := TwoTexts(n.g.b, nocase);
    } else {
      w := AnyText(n.g.b, nocase);
      w' := AltsOther(n.g.more, Fixed(n.g.b), nocase);
    }
    GroupText(n.g, w);
    GroupText(n.g, w');
  }

  lemma {:induction false} AltsOther(a: Alts, length: nat, nocase: bool) returns (w: seq<Byte>)
    requires ValidAlts(a, nocase) && FreeAlts(a) && !AnyGivenUpAlts(a) && FixedAlts(a, length) < 0
    ensures AltsText(a, w) && |w| != length
    decreases a, 1
  {
    hide Text;
    if Fixed(a.b) < 0 {
      var u, u' := TwoTexts(a.b, nocase);
      w := if |u| != length then u else u';
    } else if Fixed(a.b) != length {
      w := AnyText(a.b, nocase);
    } else {
      w := AltsOther(a.more, length, nocase);
    }
  }

  ghost predicate TwoLengths(ns: Nodes) {
    exists u: seq<Byte>, v: seq<Byte> :: Text(ns, u) && Text(ns, v) && |u| != |v|
  }

  lemma {:induction false} GivenUpHasNone(ns: Nodes)
    ensures AnyGivenUp(ns) ==> Fixed(ns) < 0
    decreases ns, 1
  {
    if ns.Cons? {
      GivenUpHasNone(ns.rest);
      GivenUpNode(ns.n);
    }
  }

  lemma {:induction false} GivenUpNode(n: Node)
    ensures GivenUp(n) ==> FixedNode(n) < 0
    decreases n, 0
  {
    match n
    case Zero(_) =>
    case One(_) =>
    case Rep(x, k) =>
    case Grp(z, g) =>
      GivenUpHasNone(g.b);
      GivenUpAlts(g.more, Fixed(g.b));
    case Once(_) =>
  }

  lemma {:induction false} GivenUpAlts(a: Alts, length: int)
    requires length >= -1
    ensures AnyGivenUpAlts(a) || length < 0 ==> FixedAlts(a, length) < 0
    decreases a, 1
  {
    if a.Alt? {
      GivenUpHasNone(a.b);
      GivenUpAlts(a.more, length);
    }
  }

  /** Without anchors, and where no bracket that takes a byte repeats, there is no fixed
      length if and only if the scan gives up on an item or there are texts of different
      lengths that match. */
  lemma NoneIff(ns: Nodes, nocase: bool)
    requires ValidNodes(ns, nocase) && Free(ns) && Single(ns)
    ensures Fixed(ns) < 0 <==> AnyGivenUp(ns) || TwoLengths(ns)
  {
    hide Ends, Text, AnyGivenUp, Fixed, Single;
    GivenUpHasNone(ns);
    if Fixed(ns) < 0 {
      if !AnyGivenUp(ns) { var u, v := TwoTexts(ns, nocase); }
    } else {
      forall w: seq<Byte> | Text(ns, w) ensures |w| == Fixed(ns) {
        TextEnds(ns, w, nocase);
        FixedIsExact(Ctx(w, nocase, false, false, false, false, false), ns, 0, |w|);
      }
    }
  }

  lemma TextEnds(ns: Nodes, w: seq<Byte>, nocase: bool)
    requires Text(ns, w)
    ensures Ends(Ctx(w, nocase, false, false, false, false, false), ns, 0, |w|)
  {
    hide Ends;
    assert Stands(Ctx(w, nocase, false, false, false, false, false), 0, w);
  }

  // ---------- lookbehind ----------

  /** OP_REVERSE with the count n, and then the items of the branch. */
  function Behind(c: Ctx, ns: Nodes, n: nat, r: Res): (out: seq<Res>)
    requires r.pos <= |c.s|
  {
    if r.pos < n then [] else AllNodes(c, ns, r.(pos := r.pos - n))
  }

  /** A branch of a lookbehind runs to its ket exactly when some text that ends at the
      current position matches it, and always ends at that position. */
  lemma LookbehindExact(c: Ctx, ns: Nodes, r: Res)
    requires r.pos <= |c.s| && Single(ns) && Fixed(ns) >= 0
    ensures forall i :: 0 <= i < |Behind(c, ns, Fixed(ns), r)| ==> Behind(c, ns, Fixed(ns), r)[i].pos == r.pos
    ensures Behind(c, ns, Fixed(ns), r) != [] <==> exists q: nat :: q <= r.pos && Ends(c, ns, q, r.pos)
  {
    hide AllNodes, Fixed, Ends, Behind;
    BehindEnds(c, ns, r);
    var out := Behind(c, ns, Fixed(ns), r);
    if out != [] { assert out[0].pos == r.pos; }
    if q: nat :| q <= r.pos && Ends(c, ns, q, r.pos) { FixedIsExact(c, ns, q, r.pos); }
  }

  /** Every result is the end of a match that began where the step back leads. */
  lemma BehindEnds(c: Ctx, ns: Nodes, r: Res)
    requires r.pos <= |c.s| && Single(ns) && Fixed(ns) >= 0
    ensures forall i :: 0 <= i < |Behind(c, ns, Fixed(ns), r)| ==> Behind(c, ns, Fixed(ns), r)[i].pos == r.pos
    ensures Behind(c, ns, Fixed(ns), r) != [] <==> Fixed(ns) <= r.pos && Ends(c, ns, r.pos - Fixed(ns), r.pos)
  {
    hide AllNodes, Fixed;
    var n := Fixed(ns);
    if r.pos >= n {
      var r', out := r.(pos := r.pos - n), Behind(c, ns, n, r);
      BareNodes(c, ns, r');
      forall i | 0 <= i < |out| ensures out[i].pos == r.pos && Ends(c, ns, r'.pos, r.pos) {
        assert Bare(out)[i] == At0(out[i].pos);
        FixedIsExact(c, ns, r'.pos, out[i].pos);
      }
      if out != [] { assert out[0].pos == r.pos; }
      if Ends(c, ns, r'.pos, r.pos) { assert At0(r.pos) in Bare(out); }
    }
  }

  const A: Single := Lit(97, false)
  const TWO: Ctx := Ctx([97, 97], false, false, false, false, false, false)

  function Loop(): Group { Group(0, false, Cons(One(A), Nil), NoAlt, KetRMax) }

  lemma OneByte(p: nat)
    requires p < 2
    ensures EndsOnce(TWO, Loop(), p, p + 1)
  {
    EndsCons(TWO, One(A), Nil, p, p + 1);
    assert At0(p + 1) in AllNode(TWO, One(A), At0(p)) && Ends(TWO, Nil, p + 1, p + 1);
  }

  lemma LoneGroup(c: Ctx, g: Group, p: nat, e: nat)
    requires p <= |c.s| && e <= |c.s| && EndsGroup(c, g, p, e)
    ensures Ends(c, Cons(Grp(NoPrefix, g), Nil), p, e)
  {
    EndsCons(c, Grp(NoPrefix, g), Nil, p, e);
    assert At0(e) in AllNode(c, Grp(NoPrefix, g), At0(p));
    hide AllGroup;
    assert Ends(c, Nil, e, e);
  }

  lemma LoopLength()
    ensures Fixed(Cons(Grp(NoPrefix, Loop()), Nil)) == 1 && !Single(Cons(Grp(NoPrefix, Loop()), Nil))
  {
    assert Fixed(Nil) == 0 && Fixed(Cons(One(A), Nil)) == 1;
  }

  /** Unlimited repeats are taken for single passages: (?:a)+ is given the length 1,
      and can match two bytes. */
  lemma RepeatsMiscounted()
    ensures Fixed(Cons(Grp(NoPrefix, Loop()), Nil)) == 1 && !Single(Cons(Grp(NoPrefix, Loop()), Nil))
    ensures Ends(TWO, Cons(Grp(NoPrefix, Loop()), Nil), 0, 2)
  {
    hide EndsOnce, EndsGroup, Ends;
    LoopLength();
    OneByte(0);
    OneByte(1);
    EndsGroupIff(TWO, Loop(), 1, 2);
    EndsGroupIff(TWO, Loop(), 0, 2);
    LoneGroup(TWO, Loop(), 0, 2);
  }

  // ---------- the scan of the code ----------

  /** At cc: the items ns of a branch, the branches rest, and then a ket, or the END
      that marks a branch which is still being compiled. */
  predicate Along(code: seq<Byte>, cc: nat, ns: Nodes, rest: Alts, end: nat, nocase: bool) {
    ValidNodes(ns, nocase) && ValidAlts(rest, nocase) && 0 < cc && Has(code, cc, EncNodes(ns)) &&
    Has(code, cc + |EncNodes(ns)|, EncAlts(rest)) && cc + |EncNodes(ns)| + |EncAlts(rest)| == end < |code| <= MAX_PATTERN_SIZE &&
    (code[end] == OP_END || IsKet(code[end]))
  }

  lemma AlongItem(code: seq<Byte>, cc: nat, ns: Nodes, rest: Alts, end: nat, nocase: bool)
    requires Along(code, cc, ns, rest, end, nocase) && ns.Cons?
    ensures ValidNode(ns.n, nocase) && Has(code, cc, EncNode(ns.n)) && At(code, cc) == EncNode(ns.n)[0]
    ensures Along(code, cc + |EncNode(ns.n)|, ns.rest, rest, end, nocase) && !IsClassRepeatOp(At(code, cc + |EncNode(ns.n)|))
    ensures cc + |EncNode(ns.n)| <= end
  {
    hide Has, EncNode, EncAlts, OpLength;
    assert ns == Cons(ns.n, ns.rest);
    NodesAt(code, cc, ns.n, ns.rest);
    var next := cc + |EncNode(ns.n)|;
    if ns.rest.Cons? {
      assert ns.rest == Cons(ns.rest.n, ns.rest.rest);
      NodesAt(code, next, ns.rest.n, ns.rest.rest);
      assert ValidNodes(ns.rest, nocase) && ValidNode(ns.rest.n, nocase);
      PlainNodeCoded(ns.rest.n, nocase);
      StartByte(ns.rest.n, nocase);
    } else {
      AlongEnd(code, next, ns.rest, rest, end, nocase);
    }
  }

  lemma AlongFits(code: seq<Byte>, cc: nat, ns: Nodes, rest: Alts, end: nat, nocase: bool)
    requires Along(code, cc, ns, rest, end, nocase)
    ensures cc <= end < |code|
    ensures At(code, cc) != OP_ALT && !IsKet(At(code, cc)) && At(code, cc) != OP_END ==> ns.Cons?
  {
    if ns.Nil? { AlongEnd(code, cc, ns, rest, end, nocase); }
  }

  lemma AlongEnd(code: seq<Byte>, cc: nat, ns: Nodes, rest: Alts, end: nat, nocase: bool)
    requires Along(code, cc, ns, rest, end, nocase) && ns.Nil?
    ensures if rest.Alt? then At(code, cc) == OP_ALT && Along(code, cc + 3, rest.b, rest.more, end, nocase) && cc + 3 <= end
            else cc == end && (At(code, cc) == OP_END || IsKet(At(code, cc)))
  {
    assert EncNodes(Nil) == [];
    hide Has, EncNodes;
    if rest.Alt? {
      assert rest == Alt(rest.b, rest.more);
      AltAt(code, cc, rest.b, rest.more);
      AltLen(rest.b, rest.more);
    }
  }

  lemma AlongGroup(code: seq<Byte>, cc: nat, ns: Nodes, rest: Alts, end: nat, nocase: bool)
    requires Along(code, cc, ns, rest, end, nocase) && ns.Cons? && ns.n.Grp? && ns.n.z == NoPrefix
    ensures var g := ns.n.g;
      && Along(code, cc + HeadLen(g), g.b, g.more, cc + Span(g), nocase) && SkipAlts(code, cc) == cc + Span(g)
      && cc + Span(g) + 3 == cc + |EncNode(ns.n)| <= end
  {
    hide Has, EncNodes, EncGroup, EncAlts, SkipAlts;
    AlongItem(code, cc, ns, rest, end, nocase);
    assert EncNode(ns.n) == EncGroup(ns.n.g);
    GroupAt(code, cc, ns.n.g);
    SkipGroup(code, cc, ns.n.g);
  }

  /** What is still to be computed. */
  function Remains(length: int, branchlength: nat, ns: Nodes, rest: Alts): int
    requires length >= -1
  {
    var total := if Fixed(ns) < 0 then -1 else branchlength + Fixed(ns);
    if length < 0 then FixedAlts(rest, total) else if total == length then FixedAlts(rest, length) else -1
  }

  lemma RemainsItem(length: int, branchlength: nat, ns: Nodes, rest: Alts)
    requires length >= -1 && ns.Cons?
    ensures Remains(length, branchlength, ns, rest) ==
      if FixedNode(ns.n) < 0 then -1 else Remains(length, branchlength + FixedNode(ns.n), ns.rest, rest)
  {
    NoLength(rest);
  }

  lemma NoLength(a: Alts)
    ensures FixedAlts(a, -1) == -1
  {
  }

  lemma RemainsFirst(b: Nodes, more: Alts)
    ensures FixedAlts(more, Fixed(b)) == Remains(-1, 0, b, more)
  {
  }

  /** At the end of a branch. */
  lemma BranchDone(code: seq<Byte>, cc: nat, ns: Nodes, rest: Alts, end: nat, nocase: bool, length: int, branchlength: nat)
    requires Along(code, cc, ns, rest, end, nocase) && length >= -1
    requires At(code, cc) == OP_ALT || IsKet(At(code, cc)) || At(code, cc) == OP_END
    ensures ns.Nil? && (rest.Alt? <==> At(code, cc) == OP_ALT)
    ensures rest.Alt? ==> Along(code, cc + 3, rest.b, rest.more, end, nocase) && cc + 3 <= end
    ensures var len := if length < 0 then branchlength else length;
      Remains(length, branchlength, ns, rest) ==
        if len != branchlength then -1 else if rest.NoAlt? then len else Remains(len, 0, rest.b, rest.more)
  {
    hide Has, EncNodes, Along;
    if ns.Cons? {
      AlongItem(code, cc, ns, rest, end, nocase);
      PlainNodeCoded(ns.n, nocase);
      HeadOf(ns.n, nocase);
      NotEnd(ns.n, nocase);
    } else {
      AlongEnd(code, cc, ns, rest, end, nocase);
    }
  }

  lemma NotEnd(n: Node, nocase: bool)
    requires ValidNode(n, nocase)
    ensures EncNode(n)[0] != OP_END
  {
    match n
    case Zero(_) =>
    case One(x) => OneHead(x, nocase);
    case Rep(x, k) => if x.Class? { ClassHead(x, k, nocase); } else { FamilyHead(x, k); }
    case Grp(z, g) => GroupHead(z, g);
  }

  /** One item: its length in the code, and the length of what it matches. */
  method Item(code: seq<Byte>, cc: nat, ghost ns: Nodes, ghost rest: Alts, ghost end: nat, ghost nocase: bool)
    returns (step: nat, width: int)
    requires Along(code, cc, ns, rest, end, nocase) && ns.Cons?
    ensures width == FixedNode(ns.n)
    ensures width >= 0 ==> step > 0 && cc + step <= end && Along(code, cc + step, ns.rest, rest, end, nocase)
    decreases |code| - cc, 0
  {
    hide Has, EncNodes, EncGroup, EncAlts, Along, Fixed, FixedAlts, SkipAlts, ValidGroup;
    AlongItem(code, cc, ns, rest, end, nocase);
    ItemParts(code, cc, ns.n, nocase);
    var op := At(code, cc);
    if op == OP_BRA || op == OP_CBRA {
      AlongGroup(code, cc, ns, rest, end, nocase);
      var d := FindFixedLength(code, cc + OpLength(op), ns.n.g.b, ns.n.g.more, cc + Span(ns.n.g), nocase);
      return SkipAlts(code, cc) + 3 - cc, d;
    } else if op in {OP_SOD, OP_EOD, OP_EODN, OP_CIRC, OP_DOLL} {
      return 1, 0;
    } else if op == OP_CHAR || op == OP_CHARNC || op == OP_NOT {
      return 2, 1;
    } else if op == OP_STAR + 8 || op == OP_TYPESTAR + 8 {
      return 4, Get(code, cc + 1);
    } else if OP_NOT_DIGIT <= op <= OP_ALLANY {
      return 1, 1;
    } else if op == OP_CLASS || op == OP_NCLASS {
      var cr := At(code, cc + 33);
      if cr == OP_CRRANGE || cr == OP_CRMINRANGE {
        return 38, if Get(code, cc + 34) != Get(code, cc + 36) then -1 else Get(code, cc + 34);
      }
      return 33, if OP_CRSTAR <= cr <= OP_CRMINQUERY then -1 else 1;
    }
    return 0, -1;
  }

  /** find_fixedlength on the branches whose first item is at start. */
  method FindFixedLength(code: seq<Byte>, start: nat, ghost b: Nodes, ghost more: Alts, ghost end: nat, ghost nocase: bool)
    returns (length: int)
    requires Along(code, start, b, more, end, nocase)
    ensures length == FixedAlts(more, Fixed(b))
    decreases |code| - start, 1
  {
    hide Has, EncNodes, EncNode, EncGroup, EncAlts, Along, Remains, Fixed, FixedAlts, SkipAlts;
    length := -1;
    var branchlength, cc := 0, start;
    ghost var ns, rest := b, more;
    RemainsFirst(b, more);
    AlongFits(code, cc, ns, rest, end, nocase);
    while true
      invariant Along(code, cc, ns, rest, end, nocase) && start <= cc <= end < |code|
      invariant FixedAlts(more, Fixed(b)) == Remains(length, branchlength, ns, rest)
      decreases |code| - cc
    {
      AlongFits(code, cc, ns, rest, end, nocase);
      var op := At(code, cc);
      if op == OP_ALT || IsKet(op) || op == OP_END {
        BranchDone(code, cc, ns, rest, end, nocase, length, branchlength);
        if length < 0 { length := branchlength; } else if length != branchlength { return -1; }
        if op != OP_ALT { return; }
        cc, branchlength := cc + 3, 0;
        ns, rest := rest.b, rest.more;
      } else {
        var step, width := Item(code, cc, ns, rest, end, nocase);
        RemainsItem(length, branchlength, ns, rest);
        if width < 0 { return -1; }
        cc, branchlength := cc + step, branchlength + width;
        ns := ns.rest;
      }
    }
  }

  /** The fields of an item that the scan reads. */
  lemma ItemParts(code: seq<Byte>, cc: nat, n: Node, nocase: bool)
    requires Has(code, cc, EncNode(n)) && ValidNode(n, nocase) && !IsClassRepeatOp(At(code, cc + |EncNode(n)|))
    ensures var op := At(code, cc);
      && (op == OP_BRA || op == OP_CBRA <==> n.Grp? && n.z == NoPrefix && !n.g.s)
      && (op == OP_BRA || op == OP_CBRA ==> OpLength(op) == HeadLen(n.g))
      && (op in {OP_SOD, OP_EOD, OP_EODN, OP_CIRC, OP_DOLL} <==> n.Zero?) && (n.Zero? ==> |EncNode(n)| == 1)
      && (op in {OP_CHAR, OP_CHARNC, OP_NOT} <==> n.One? && (n.x.Lit? || n.x.NotLit?))
      && (op in {OP_CHAR, OP_CHARNC, OP_NOT} ==> |EncNode(n)| == 2)
      && (op in {OP_STAR + 8, OP_TYPESTAR + 8} <==> n.Rep? && n.k.Exact? && !n.x.NotLit?)
      && (op in {OP_STAR + 8, OP_TYPESTAR + 8} ==> |EncNode(n)| == 4 && Get(code, cc + 1) == n.k.n)
      && (OP_NOT_DIGIT <= op <= OP_ALLANY <==> n.One? && n.x.Type?) && (n.One? && n.x.Type? ==> |EncNode(n)| == 1)
      && (op in {OP_CLASS, OP_NCLASS} <==> (n.One? || n.Rep?) && n.x.Class?)
      && (n.One? && n.x.Class? ==> |EncNode(n)| == 33 && !(OP_CRSTAR <= At(code, cc + 33) <= OP_CRMINRANGE))
      && (n.Rep? && n.x.Class? ==> At(code, cc + 33) == OP_CRSTAR + KindOffset(n.k))
      && (n.Rep? && n.k.Range? ==> |EncNode(n)| == 38 && Get(code, cc + 34) == n.k.min && Get(code, cc + 36) == if n.k.max < 0 then 0 else n.k.max)
  {
    hide EncGroup;
    HasAt(code, cc, EncNode(n), 0);
    match n
    case Zero(_) =>
    case One(x) =>
    case Rep(x, k) => RepParts(code, cc, x, k, nocase);
    case Grp(z, g) =>
      GroupHead(z, g);
  }

  lemma RepParts(code: seq<Byte>, cc: nat, x: Single, k: Kind, nocase: bool)
    requires Has(code, cc, EncRep(x, k)) && ValidSingle(x, nocase) && ValidKind(x, k)
    ensures !x.Class? ==>
      At(code, cc) == OP_STAR + 13 * Family(x) + KindOffset(k) && (k.Exact? ==> |EncRep(x, k)| == 4 && Get(code, cc + 1) == k.n)
    ensures x.Class? ==>
      At(code, cc) in {OP_CLASS, OP_NCLASS} && At(code, cc + 33) == OP_CRSTAR + KindOffset(k) &&
      (k.Range? ==>
         |EncRep(x, k)| == 38 && Get(code, cc + 34) == k.min && Get(code, cc + 36) == if k.max < 0 then 0 else k.max)
  {
    hide Has, EncRep, ClassTail, KindCount, KindOffset, Link;
    if x.Class? {
      ClassHead(x, k, nocase);
      ClassTailAt(code, cc, x, k, nocase);
      HasSplit(code, cc, EncOne(x), ClassTail(k));
      ClassBits(code, cc, x);
      RangeParts(code, cc + 33, x, k);
    } else {
      FamilyParts(code, cc, x, k);
      ExactParts(code, cc, x, k);
    }
  }

  lemma RangeParts(code: seq<Byte>, pc: nat, x: Single, k: Kind)
    requires Has(code, pc, ClassTail(k)) && ValidKind(x, k) && x.Class?
    ensures At(code, pc) == OP_CRSTAR + KindOffset(k)
    ensures k.Range? ==>
      |ClassTail(k)| == 5 && Get(code, pc + 1) == k.min && Get(code, pc + 3) == if k.max < 0 then 0 else k.max
  {
    hide Has;
    HasSplit(code, pc, [OP_CRSTAR + KindOffset(k)], KindCount(k));
    HasAt(code, pc, [OP_CRSTAR + KindOffset(k)], 0);
    if k.Range? {
      HasSplit(code, pc + 1, Link(k.min), Link(if k.max < 0 then 0 else k.max));
      HasLink(code, pc + 1, k.min);
      HasLink(code, pc + 3, if k.max < 0 then 0 else k.max);
    }
  }

  lemma ExactParts(code: seq<Byte>, pc: nat, x: Single, k: Kind)
    requires !x.Class? && Has(code, pc + 1, KindCount(k)) && ValidKind(x, k)
    ensures k.Exact? ==> |EncRep(x, k)| == 4 && Get(code, pc + 1) == k.n
  {
    EncRepLen(x, k);
    if k.Exact? { HasLink(code, pc + 1, k.n); }
  }
}
