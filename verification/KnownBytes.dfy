/** When the compiler knows the first byte of a pattern, and when a last one. */
module KnownBytes {
  import opened Bytes
  import opened Code
  import opened Semantics
  import opened Pattern
  import opened FirstByte

  /** The branch begins with the literal c: behind anchors other than a ^ that matches at
      every line, itself, repeated at least once, or in a group of such branches. */
  predicate Opens(b: Branch, multiline: bool, c: Byte, nocase: bool)
    decreases b, 1
  {
    b.Then? && match b.i
      case Assertion(op) => !(op == OP_CIRC && multiline) && Opens(b.rest, multiline, c, nocase)
      case Atom(x, q) => x == Lit(c, nocase) && (q.Q? ==> q.min > 0)
      case Paren(_, _, _, q) => (q.Q? ==> q.min > 0) && OpensGroup(b.i, multiline, c, nocase)
  }

  predicate OpensGroup(i: Item, multiline: bool, c: Byte, nocase: bool)
    requires i.Paren?
    decreases i, 0
  {
    Opens(i.b, multiline, c, nocase) && OpensMore(i.more, multiline, c, nocase)
  }

  predicate OpensMore(m: Branches, multiline: bool, c: Byte, nocase: bool)
    decreases m, 1
  {
    m.Or? ==> Opens(m.b, multiline, c, nocase) && OpensMore(m.more, multiline, c, nocase)
  }

  /** A first byte, once settled, stays. */
  lemma {:induction false} FirstStays(b: Branch, multiline: bool, s: Scan)
    requires s.first != Unset
    ensures ScanBranch(b, multiline, s).first == s.first
    decreases b, 1
  {
    hide ScanGroup;
    if b.Then? { FirstStays(b.rest, multiline, ScanItem(b.i, multiline, s)); }
  }

  lemma {:induction false} OpensIff(b: Branch, multiline: bool, s: Scan, c: Byte, nocase: bool)
    requires s.first == Unset
    ensures ScanBranch(b, multiline, s).first == Must(c, nocase, false) <==> Opens(b, multiline, c, nocase)
    ensures ScanBranch(b, multiline, s).first.Must? ==> !ScanBranch(b, multiline, s).first.vary
    decreases b, 1
  {
    hide ScanGroup, OpensGroup;
    if b.Then? {
      var s1 := ScanItem(b.i, multiline, s);
      if b.i.Paren? { OpensGroupIff(b.i, multiline, s.vary, c, nocase); }
      if s1.first == Unset { OpensIff(b.rest, multiline, s1, c, nocase); } else { FirstStays(b.rest, multiline, s1); }
    }
  }

  lemma {:induction false} OpensGroupIff(i: Item, multiline: bool, vary: bool, c: Byte, nocase: bool)
    requires i.Paren?
    ensures ScanGroup(i, multiline, vary).first == Must(c, nocase, false) <==> OpensGroup(i, multiline, c, nocase)
    ensures ScanGroup(i, multiline, vary).first.Must? ==> !ScanGroup(i, multiline, vary).first.vary
    decreases i, 0
  {
    hide Opens, ScanBranch, ScanMore;
    OpensIff(i.b, multiline, ScanStart(vary), c, nocase);
    var s := ScanBranch(i.b, multiline, ScanStart(vary));
    OpensMoreIff(i.more, multiline, Found(s.first, s.req, s.vary), c, nocase);
  }

  lemma {:induction false} OpensMoreIff(m: Branches, multiline: bool, f: Found, c: Byte, nocase: bool)
    requires f.first.Must? ==> !f.first.vary
    ensures ScanMore(m, multiline, f).first == Must(c, nocase, false) <==> f.first == Must(c, nocase, false) && OpensMore(m, multiline, c, nocase)
    ensures ScanMore(m, multiline, f).first.Must? ==> !ScanMore(m, multiline, f).first.vary
    decreases m, 1
  {
    hide Opens, ScanBranch;
    if m.Or? {
      OpensIff(m.b, multiline, ScanStart(f.vary), c, nocase);
      OpensMoreIff(m.more, multiline, Merge(f, ScanBranch(m.b, multiline, ScanStart(f.vary))), c, nocase);
    }
  }

  // ---------- the required byte ----------

  /** The branch ends with the literal c, and not only with that: before it stands an item
      that is no anchor. */
  predicate Closes(b: Branch, seen: bool, c: Byte, nocase: bool) {
    b.Then? &&
    if b.rest.Empty? then seen && b.i.Atom? && b.i.x == Lit(c, nocase) && (b.i.q.Q? ==> b.i.q.min > 0)
    else Closes(b.rest, seen || !b.i.Assertion?, c, nocase)
  }

  /** Then that is the required byte. */
  lemma {:induction false} LastRequired(b: Branch, multiline: bool, s: Scan, seen: bool, c: Byte, nocase: bool)
    requires Closes(b, seen, c, nocase) && (seen ==> s.first != Unset)
    ensures ScanBranch(b, multiline, s).req.Plain() == Must(c, nocase, false)
    decreases b
  {
    hide ScanGroup;
    if b.rest.Empty? {
      assert ScanBranch(b, multiline, s) == ScanItem(b.i, multiline, s);
    } else {
      LastRequired(b.rest, multiline, ScanItem(b.i, multiline, s), seen || !b.i.Assertion?, c, nocase);
    }
  }
}
