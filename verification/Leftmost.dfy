/** What a search for a match must find, and which starts it may pass over. */
module Leftmost {
  import opened Bytes
  import opened Code
  import opened Layout
  import opened Semantics
  import opened Machine
  import opened Simulation
  import opened Pattern
  import opened Lowering
  import opened Theorems
  import opened Language
  import opened Anchors
  import opened FirstByte

  /** The ways of matching at p, in order; vec holds the captures before the match. */
  function WaysAt(c: Ctx, b: Branch, more: Branches, vec: seq<int>, p: nat): seq<Res>
    requires p <= |c.s|
  {
    Filter(c, p, Matches(c, b, more, Res(p, vec, 2)))
  }

  predicate NoneAt(c: Ctx, b: Branch, more: Branches, vec: seq<int>, p: nat)
    requires p <= |c.s|
  {
    WaysAt(c, b, more, vec, p) == []
  }

  lemma {:induction false} FilterHas(c: Ctx, ms: nat, rs: seq<Res>)
    ensures Filter(c, ms, rs) != [] <==> exists i :: 0 <= i < |rs| && !(c.notempty && rs[i].pos == ms)
    decreases |rs|
  {
    if rs != [] {
      FilterHas(c, ms, rs[1..]);
      if exists i :: 0 <= i < |rs| && !(c.notempty && rs[i].pos == ms) {
        var i :| 0 <= i < |rs| && !(c.notempty && rs[i].pos == ms);
        if i > 0 { assert rs[1..][i - 1] == rs[i]; }
      }
      if exists i :: 0 <= i < |rs[1..]| && !(c.notempty && rs[1..][i].pos == ms) {
        var i :| 0 <= i < |rs[1..]| && !(c.notempty && rs[1..][i].pos == ms);
        assert rs[i + 1] == rs[1..][i];
      }
    }
  }

  /** An end of some way of matching at p. */
  lemma SomeWay(c: Ctx, b: Branch, more: Branches, vec: seq<int>, p: nat) returns (i: nat)
    requires p <= |c.s| && !NoneAt(c, b, more, vec, p)
    ensures var rs := Matches(c, b, more, Res(p, vec, 2));
      i < |rs| && !(c.notempty && rs[i].pos == p) && p <= rs[i].pos <= |c.s|
  {
    hide Matches, Filter;
    var rs := Matches(c, b, more, Res(p, vec, 2));
    FilterHas(c, p, rs);
    i :| 0 <= i < |rs| && !(c.notempty && rs[i].pos == p);
  }

  // ---------- first and required bytes ----------

  /** The first and the required byte as they are stored: no caseless flag for a byte without two cases. */
  function Uncase(f: Req): Req { if f.Must? && Fcc(f.c) == f.c then f.(caseless := false) else f }

  lemma UncaseHits(f: Req, b: Byte)
    ensures Hit(Uncase(f), b) == Hit(f, b)
    ensures f.Must? && f.caseless ==> Hit(f, b) == (b == f.c || b == Fcc(f.c))
  {
  }

  function Whole(b: Branch, more: Branches): Item { Paren(false, b, more, NoQ) }

  lemma MatchesObey(c: Ctx, b: Branch, more: Branches, vec: seq<int>, p: nat, i: nat)
    requires p <= |c.s| && ValidBranch(b, c.nocase) && ValidMore(more, c.nocase)
    requires i < |Matches(c, b, more, Res(p, vec, 2))|
    ensures var f := ScanGroup(Whole(b, more), c.multiline, false);
      Obeys(c, f.first, f.req, p, Matches(c, b, more, Res(p, vec, 2))[i].pos)
  {
    var r := Res(p, vec, 2);
    GroupObeys(c, Whole(b, more), 0, false, r);
    hide SBranch, SMore, ScanGroup, Obeys;
    assert SOnce(c, Whole(b, more), 0, r)[i].pos == Matches(c, b, more, r)[i].pos;
  }

  /** Where the first byte is not, there is no match. */
  lemma FirstRules(c: Ctx, b: Branch, more: Branches, vec: seq<int>, p: nat)
    requires p <= |c.s| && ValidBranch(b, c.nocase) && ValidMore(more, c.nocase)
    requires var f := ScanGroup(Whole(b, more), c.multiline, false).first; f.Must? && !(p < |c.s| && Hit(f, c.s[p]))
    ensures NoneAt(c, b, more, vec, p)
  {
    hide Matches, ScanGroup, NoneAt;
    if !NoneAt(c, b, more, vec, p) {
      var i := SomeWay(c, b, more, vec, p);
      MatchesObey(c, b, more, vec, p, i);
    }
  }

  /** Where the required byte does not follow, there is no match. */
  lemma ReqRules(c: Ctx, b: Branch, more: Branches, vec: seq<int>, p: nat, lo: nat)
    requires p <= |c.s| && ValidBranch(b, c.nocase) && ValidMore(more, c.nocase)
    requires var f := ScanGroup(Whole(b, more), c.multiline, false);
      f.req.Must? && lo <= (if f.first.Must? then p + 1 else p) &&
      forall q :: lo <= q < |c.s| ==> !Hit(f.req, c.s[q])
    ensures NoneAt(c, b, more, vec, p)
  {
    hide Matches, ScanGroup, NoneAt;
    if !NoneAt(c, b, more, vec, p) {
      var i := SomeWay(c, b, more, vec, p);
      MatchesObey(c, b, more, vec, p, i);
    }
  }

  // ---------- starts that slide back ----------

  lemma MatchesEnd(c: Ctx, b: Branch, more: Branches, vec: seq<int>, p: nat, e: nat)
    requires p <= |c.s| && Compilable(b, more, c.nocase)
    ensures (exists i :: 0 <= i < |Matches(c, b, more, Res(p, vec, 2))| && Matches(c, b, more, Res(p, vec, 2))[i].pos == e) <==>
      EndsGroup(c, Compile(b, more, c.nocase), p, e)
  {
    var r := Res(p, vec, 2);
    var g := Compile(b, more, c.nocase);
    CompilableOk(c, b, more, r);
    BareGroup(c, g, r);
    hide AllGroup, Matches, Compilable, Compile;
    var rs := Matches(c, b, more, r);
    if exists i :: 0 <= i < |rs| && rs[i].pos == e {
      var i :| 0 <= i < |rs| && rs[i].pos == e;
      assert Bare(rs)[i] == At0(e);
    }
    if EndsGroup(c, g, p, e) {
      var i :| 0 <= i < |Bare(rs)| && Bare(rs)[i] == At0(e);
    }
  }

  /** If every branch begins with an unlimited repeat of dots, or an anchor that cannot
      match at p, and the byte before p is a dot, then a match at p means one before. */
  lemma SlideRules(c: Ctx, b: Branch, more: Branches, vec: seq<int>, dot: Byte, circ: bool, sod: bool, p: nat)
    requires Compilable(b, more, c.nocase) && LeadingGroup(Compile(b, more, c.nocase), dot, circ, sod)
    requires Slippery(c, dot, circ, p) && NoneAt(c, b, more, vec, p - 1)
    ensures NoneAt(c, b, more, vec, p)
  {
    var g := Compile(b, more, c.nocase);
    hide Matches, Compilable, Compile, LeadingGroup, EndsGroup;
    if !NoneAt(c, b, more, vec, p) {
      var i := SomeWay(c, b, more, vec, p);
      var e := Matches(c, b, more, Res(p, vec, 2))[i].pos;
      MatchesEnd(c, b, more, vec, p, e);
      GroupSlides(c, g, dot, circ, sod, p, e);
      MatchesEnd(c, b, more, vec, p - 1, e);
      FilterHas(c, p - 1, Matches(c, b, more, Res(p - 1, vec, 2)));
    }
  }
}
