/** The map of starting bytes is exact: where nothing is possessive, every byte of it
    begins some match. */
module StartBytes {
  import opened Bytes
  import opened Code
  import opened Semantics
  import opened Repeats
  import opened Language
  import opened Lookbehind
  import opened Study
  import opened Pattern
  import opened Lowering
  import opened Theorems
  import opened Leftmost

  /** No anchors, no possessive repeats, and no item that accepts nothing. */
  ghost predicate Supple(ns: Nodes) {
    match ns
    case Nil => true
    case Cons(n, rest) => SuppleNode(n) && Supple(rest)
  }

  ghost predicate SuppleNode(n: Node) {
    match n
    case Zero(_) => false
    case One(x) => Takes(x)
    case Rep(x, k) => Takes(x) && k.M() != Possessive
    case Grp(_, g) => Supple(g.b) && SuppleAlts(g.more)
    case Once(_) => false
  }

  ghost predicate SuppleAlts(a: Alts) { a.Alt? ==> Supple(a.b) && SuppleAlts(a.more) }

  /** A text of a bracket is one of the bracket with a prefix. */
  lemma PrefixText(z: Prefix, g: Group, w: seq<Byte>)
    requires z != SkipZero && (Text(g.b, w) || AltsText(g.more, w))
    ensures NodeText(Grp(z, g), w)
  {
    GroupText(g, w);
    hide AllGroup, Text, AltsText;
    forall c: Ctx, p: nat | Stands(c, p, w) ensures At0(p + |w|) in AllNode(c, Grp(z, g), At0(p)) {
      assert At0(p + |w|) in AllNode(c, Grp(NoPrefix, g), At0(p));
    }
  }

  /** Nothing is a text of a bracket that may be left out. */
  lemma SkipText(z: Prefix, g: Group)
    requires z != NoPrefix
    ensures NodeText(Grp(z, g), [])
  {
    hide AllGroup;
    forall c: Ctx, p: nat | Stands(c, p, []) ensures At0(p + 0) in AllNode(c, Grp(z, g), At0(p)) { }
  }

  // ---------- every item has a text ----------

  lemma {:induction false} WholeText(ns: Nodes, nocase: bool) returns (w: seq<Byte>)
    requires ValidNodes(ns, nocase) && Supple(ns)
    ensures Text(ns, w)
    decreases ns, 1
  {
    hide Text, NodeText;
    if ns.Nil? {
      w := [];
      NilText();
    } else {
      var u := NodeWhole(ns.n, nocase);
      var v := WholeText(ns.rest, nocase);
      TextCons(ns.n, ns.rest, u, v);
      w := u + v;
    }
  }

  lemma {:induction false} NodeWhole(n: Node, nocase: bool) returns (w: seq<Byte>)
    requires ValidNode(n, nocase) && SuppleNode(n)
    ensures NodeText(n, w)
    decreases n, 0
  {
    hide Text, NodeText;
    if n.Grp? {
      if n.z == SkipZero {
        w := [];
        SkipText(n.z, n.g);
      } else {
        w := WholeText(n.g.b, nocase);
        PrefixText(n.z, n.g, w);
      }
    } else {
      w := RepText(n, if n.One? then 1 else n.k.Min());
    }
  }

  // ---------- and one that begins with a byte of the map ----------

  lemma {:induction false} EmptyText(ns: Nodes, nocase: bool)
    requires ValidNodes(ns, nocase) && Supple(ns) && NodesFind(ns) == CONTINUE
    ensures Text(ns, [])
    decreases ns, 1
  {
    hide Text, NodeText;
    if ns.Nil? {
      NilText();
    } else {
      NodeEmpty(ns.n, nocase);
      EmptyText(ns.rest, nocase);
      var none: seq<Byte> := [];
      TextCons(ns.n, ns.rest, none, none);
      assert none + none == none;
    }
  }

  lemma {:induction false} NodeEmpty(n: Node, nocase: bool)
    requires ValidNode(n, nocase) && SuppleNode(n) && NodeFinds(n) == CONTINUE
    ensures NodeText(n, [])
    decreases n, 0
  {
    hide Text, NodeText;
    if n.Grp? {
      if n.z != NoPrefix {
        SkipText(n.z, n.g);
      } else if NodesFind(n.g.b) == CONTINUE {
        EmptyText(n.g.b, nocase);
        PrefixText(n.z, n.g, []);
      } else {
        AltsEmpty(n.g.more, nocase);
        PrefixText(n.z, n.g, []);
      }
    } else {
      var w := RepText(n, 0);
      assert w == [];
    }
  }

  lemma {:induction false} AltsEmpty(a: Alts, nocase: bool)
    requires ValidAlts(a, nocase) && SuppleAlts(a) && AltsFind(a) == CONTINUE
    ensures AltsText(a, [])
    decreases a, 1
  {
    hide Text;
    if NodesFind(a.b) == CONTINUE { EmptyText(a.b, nocase); } else { AltsEmpty(a.more, nocase); }
  }

  lemma {:induction false} TextFrom(ns: Nodes, nocase: bool, b: Byte) returns (w: seq<Byte>)
    requires ValidNodes(ns, nocase) && Supple(ns) && NodesSet(ns, false, b)
    ensures Text(ns, w) && w != [] && w[0] == b
    decreases ns, 1
  {
    hide Text, NodeText, NodeSets, NodeFinds;
    if NodeSets(ns.n, false, b) {
      var u := NodeFrom(ns.n, nocase, b);
      var v := WholeText(ns.rest, nocase);
      TextCons(ns.n, ns.rest, u, v);
      w := u + v;
    } else {
      NodeEmpty(ns.n, nocase);
      var v := TextFrom(ns.rest, nocase, b);
      TextCons(ns.n, ns.rest, [], v);
      w := v;
      assert [] + v == v;
    }
  }

  lemma {:induction false} NodeFrom(n: Node, nocase: bool, b: Byte) returns (w: seq<Byte>)
    requires ValidNode(n, nocase) && SuppleNode(n) && NodeSets(n, false, b)
    ensures NodeText(n, w) && w != [] && w[0] == b
    decreases n, 0
  {
    hide Text, NodeText;
    if n.Grp? {
      if NodesSet(n.g.b, false, b) { w := TextFrom(n.g.b, nocase, b); } else { w := AltsFrom(n.g.more, nocase, b); }
      PrefixText(n.z, n.g, w);
    } else {
      w := ByteText(n, if n.Rep? && n.k.Min() > 0 then n.k.Min() else 1, b);
    }
  }

  lemma {:induction false} AltsFrom(a: Alts, nocase: bool, b: Byte) returns (w: seq<Byte>)
    requires ValidAlts(a, nocase) && SuppleAlts(a) && AltsSet(a, false, b)
    ensures AltsText(a, w) && w != [] && w[0] == b
    decreases a, 1
  {
    hide Text;
    if NodesSet(a.b, false, b) { w := TextFrom(a.b, nocase, b); } else { w := AltsFrom(a.more, nocase, b); }
  }

  /** k times the byte b. */
  lemma ByteText(n: Node, k: nat, b: Byte) returns (w: seq<Byte>)
    requires (n.One? && k == 1) || (n.Rep? && n.k.M() != Possessive && n.k.Min() <= k && (n.k.Max() < 0 || k <= n.k.Max()))
    requires Accepts(n.x, b) && k > 0
    ensures |w| == k && NodeText(n, w) && w[0] == b
  {
    hide Accepts;
    w := seq(k, i => b);
    forall c: Ctx, p: nat | Stands(c, p, w) ensures At0(p + |w|) in AllNode(c, n, At0(p)) {
      forall j | p <= j < p + k ensures Accepts(n.x, c.s[j]) { assert c.s[p..p + k][j - p] == w[j - p]; }
      if n.Rep? {
        RunsReach(c, n.x, n.k.Min(), n.k.Max(), n.k.M() == Lazy, p, p + k);
        var ps := KindRuns(c, n.x, n.k, p);
        var i :| 0 <= i < |ps| && ps[i] == p + k;
        assert AtAll(At0(p), ps)[i] == At0(p + k);
      }
    }
  }

  // ---------- patterns ----------

  /** Every byte of the map begins a match of some subject. (That no match begins with
      another byte is what the map is for.) */
  lemma EachBegins(b: Branch, more: Branches, nocase: bool, k: Byte) returns (c: Ctx)
    requires Compilable(b, more, nocase)
    requires var g := Compile(b, more, nocase); Supple(g.b) && SuppleAlts(g.more) && GroupSets(g, false, k)
    ensures c.nocase == nocase && c.s != [] && c.s[0] == k && !NoneAt(c, b, more, [], 0)
  {
    var g := Compile(b, more, nocase);
    CompilableFormed(b, more, nocase);
    hide Text, Compilable, Compile, NodesSet, Supple, SuppleAlts;
    var w;
    if NodesSet(g.b, false, k) { w := TextFrom(g.b, nocase, k); } else { w := AltsFrom(g.more, nocase, k); }
    c := Subject(w, nocase);
    TextMatches(g, w, nocase);
    MatchesEnd(c, b, more, [], 0, |w|);
    hide Matches, WaysAt, EndsGroup;
    FoundAt(c, b, more, |w|);
  }

  function Subject(w: seq<Byte>, nocase: bool): Ctx { Ctx(w, nocase, false, false, false, false, false) }

  lemma TextMatches(g: Group, w: seq<Byte>, nocase: bool)
    requires Text(g.b, w) || AltsText(g.more, w)
    ensures EndsGroup(Subject(w, nocase), g, 0, |w|)
  {
    hide Text, AltsText, EndsGroup, Ends, EndsAlts, Stands;
    var c := Subject(w, nocase);
    StandsHere(w, nocase);
    if Text(g.b, w) { TextEnds(g.b, w, nocase); } else { AltsTextAt(g.more, w, c, 0); }
    EndsGroupIff(c, g, 0, |w|);
  }

  lemma StandsHere(w: seq<Byte>, nocase: bool)
    ensures Stands(Subject(w, nocase), 0, w)
  {
  }

  lemma FoundAt(c: Ctx, b: Branch, more: Branches, e: nat)
    requires !c.notempty && exists i :: 0 <= i < |Matches(c, b, more, Res(0, [], 2))| && Matches(c, b, more, Res(0, [], 2))[i].pos == e
    ensures !NoneAt(c, b, more, [], 0)
  {
    hide Matches;
    var rs := Matches(c, b, more, Res(0, [], 2));
    FilterOf(c, 0, rs);
    assert rs[0] in rs;
  }
}
