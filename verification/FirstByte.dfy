/** The first byte and the required byte that compile_regex and compile_branch work
    out while they compile, and why every match has them. */
module FirstByte {
  import opened Bytes
  import opened Code
  import opened Semantics
  import opened Pattern

  /** REQ_UNSET, REQ_NONE, or a byte with its flags REQ_CASELESS and REQ_VARY. */
  datatype Req = Unset | NoByte | Must(c: Byte, caseless: bool, vary: bool)
  {
    function Vary(v: bool): Req { if Must? then this.(vary := vary || v) else this }

    /** & ~REQ_VARY */
    function Plain(): Req { if Must? then this.(vary := false) else this }
  }

  /** The variables of compile_branch, and the flag in compile_data. */
  datatype Scan = Scan(first: Req, req: Req, zeroFirst: Req, zeroReq: Req, groupSet: bool, vary: bool)

  datatype Found = Found(first: Req, req: Req, vary: bool)

  // ---------- what one pass over a pattern finds ----------

  function ScanStart(vary: bool): Scan { Scan(Unset, Unset, Unset, Unset, false, vary) }

  /** An item that is no literal. */
  function Plainly(s: Scan): Scan {
    var f := if s.first == Unset then NoByte else s.first;
    s.(first := f, zeroFirst := f, zeroReq := s.req)
  }

  function Literal(c: Byte, nocase: bool, s: Scan): Scan {
    if s.first == Unset then s.(first := Must(c, nocase, false), zeroFirst := NoByte, zeroReq := s.req)
    else s.(req := Must(c, nocase, s.vary), zeroFirst := s.first, zeroReq := s.req)
  }

  /** A repeat backs off if it may be empty. */
  function BackOff(q: Quant, s: Scan): Scan {
    if q.Q? && q.min == 0 then s.(first := s.zeroFirst, req := s.zeroReq) else s
  }

  function Varies(q: Quant, s: Scan): Scan {
    if q.Q? && q.min != q.max then s.(vary := true) else s
  }

  function AtomStep(x: Single, q: Quant, s: Scan): Scan {
    var s1 := BackOff(q, if x.Lit? then Literal(x.c, x.nocase, s) else Plainly(s));
    Varies(q, if x.Lit? && q.Q? && q.min > 1 then s1.(req := Must(x.c, x.nocase, s1.vary)) else s1)
  }

  /** What a group adds to the scan of the branch around it. */
  function GroupStep(sub: Found, q: Quant, s: Scan): Scan {
    var t := s.(zeroReq := s.req, zeroFirst := if s.first == Unset then NoByte else s.first, groupSet := false, vary := sub.vary);
    var subReq := if s.first != Unset && sub.first.Must? && !sub.req.Must? then sub.first.Vary(s.vary) else sub.req;
    var t1 :=
      if s.first != Unset then t
      else if sub.first.Must? then t.(first := sub.first, groupSet := true)
      else t.(first := NoByte);
    var t2 := BackOff(q, if subReq.Must? then t1.(req := subReq) else t1);
    Varies(q, if q.Q? && q.min > 1 && t2.groupSet && !t2.req.Must? then t2.(req := t2.first) else t2)
  }

  function ScanItem(i: Item, multiline: bool, s: Scan): Scan
    decreases i, 1
  {
    match i
    case Assertion(op) => if op == OP_CIRC && multiline && s.first == Unset then s.(first := NoByte) else s
    case Atom(x, q) => AtomStep(x, q, s)
    case Paren(_, _, _, q) => GroupStep(ScanGroup(i, multiline, s.vary), q, s)
  }

  function ScanBranch(b: Branch, multiline: bool, s: Scan): Scan
    decreases b, 1
  {
    match b
    case Empty => s
    case Then(i, rest) => ScanBranch(rest, multiline, ScanItem(i, multiline, s))
  }

  /** A further branch must agree with those before. */
  function Merge(f: Found, b: Scan): Found {
    var drop := f.first.Must? && f.first != b.first;
    var first := if drop then NoByte else f.first;
    var req := if drop && !f.req.Must? then f.first else f.req;
    var bReq := if !first.Must? && b.first.Must? && !b.req.Must? then b.first else b.req;
    Found(first, if req.Plain() != bReq.Plain() then NoByte else if bReq.Must? then req.Vary(bReq.vary) else req, b.vary)
  }

  function ScanMore(m: Branches, multiline: bool, f: Found): Found
    decreases m, 1
  {
    match m
    case NoMore => f
    case Or(b, more) => ScanMore(more, multiline, Merge(f, ScanBranch(b, multiline, ScanStart(f.vary))))
  }

  function ScanGroup(i: Item, multiline: bool, vary: bool): Found
    requires i.Paren?
    decreases i, 0
  {
    var s := ScanBranch(i.b, multiline, ScanStart(vary));
    ScanMore(i.more, multiline, Found(s.first, s.req, s.vary))
  }

  // ---------- what that says about matches ----------

  predicate Hit(f: Req, b: Byte) { f.Must? && Accepts(Lit(f.c, f.caseless), b) }

  /** A byte that meets f occurs from lo on, before hi. */
  predicate Occurs(c: Ctx, f: Req, lo: nat, hi: nat) {
    exists q :: lo <= q < hi && q < |c.s| && Hit(f, c.s[q])
  }

  predicate Starts(c: Ctx, f: Req, p: nat, e: nat) { p < e <= |c.s| && Hit(f, c.s[p]) }

  /** A match from p to e begins with first, and has req, after the first byte if
      there is one. */
  predicate Obeys(c: Ctx, first: Req, req: Req, p: nat, e: nat) {
    p <= e <= |c.s| && (first.Must? ==> Starts(c, first, p, e)) &&
    (req.Must? ==> Occurs(c, req, if first.Must? then p + 1 else p, e))
  }

  /** Part of a branch: nothing has been consumed as long as first is unset. */
  predicate Keeps(c: Ctx, s: Scan, p: nat, e: nat) {
    Obeys(c, s.first, s.req, p, e) && (s.first == Unset ==> e == p && !s.req.Must?)
  }

  lemma ObeysLonger(c: Ctx, first: Req, req: Req, p: nat, e: nat, e': nat)
    requires Obeys(c, first, req, p, e) && e <= e' <= |c.s|
    ensures Obeys(c, first, req, p, e')
  {
  }

  lemma {:induction false} RunsAccept(c: Ctx, x: Single, min: nat, max: int, lazy: bool, pos: nat, i: nat)
    requires pos <= |c.s| && i < |Runs(c, x, min, max, lazy, pos)|
    ensures var e := Runs(c, x, min, max, lazy, pos)[i];
      pos + min <= e && forall k :: pos <= k < e ==> Accepts(x, c.s[k])
    decreases |c.s| - pos
  {
    var more := if max != 0 && AcceptsAt(c, x, pos)
      then Runs(c, x, if min > 0 then min - 1 else 0, if max < 0 then max else max - 1, lazy, pos + 1) else [];
    var e := Runs(c, x, min, max, lazy, pos)[i];
    if e != pos || min > 0 {
      var j: nat :| j < |more| && more[j] == e;
      RunsAccept(c, x, if min > 0 then min - 1 else 0, if max < 0 then max else max - 1, lazy, pos + 1, j);
    }
  }

  lemma AtomAccepts(c: Ctx, x: Single, q: Quant, pos: nat, i: nat)
    requires pos <= |c.s| && i < |AtomRuns(c, x, q, pos)|
    ensures var e := AtomRuns(c, x, q, pos)[i];
      pos + (if q.Q? then q.min else 1) <= e && forall k :: pos <= k < e ==> Accepts(x, c.s[k])
  {
    if q.NoQ? { RunsAccept(c, x, 1, 1, false, pos, i); } else { RunsAccept(c, x, q.min, q.max, q.mode == Lazy, pos, i); }
  }

  lemma AtomKeeps(c: Ctx, x: Single, q: Quant, s: Scan, p: nat, e: nat, e': nat)
    requires Keeps(c, s, p, e) && e + (if q.Q? then q.min else 1) <= e' <= |c.s|
    requires forall k :: e <= k < e' ==> Accepts(x, c.s[k])
    ensures Keeps(c, AtomStep(x, q, s), p, e')
  {
    ObeysLonger(c, s.first, s.req, p, e, e');
    if x.Lit? && (q.Q? ==> q.min > 0) {
      var f := Must(x.c, x.nocase, s.vary);
      assert Hit(f, c.s[e]);
      if q.Q? && q.min > 1 { assert Hit(f, c.s[e + 1]); }
    }
  }

  /** One passage through a group, in the branch around it. */
  lemma GroupOnce(c: Ctx, sub: Found, q: Quant, s: Scan, p: nat, e: nat, e1: nat, e': nat)
    requires Keeps(c, s, p, e) && Obeys(c, sub.first, sub.req, e, e1) && e1 <= e' <= |c.s|
    requires q.Q? && q.min > 1 ==> exists e2: nat :: Obeys(c, sub.first, sub.req, e1, e2) && e2 <= e'
    ensures Keeps(c, GroupStep(sub, q, s), p, e')
  {
    ObeysLonger(c, s.first, s.req, p, e, e');
    if sub.first.Must? {
      assert Hit(sub.first.Vary(s.vary), c.s[e]);
      if q.Q? && q.min > 1 {
        var e2: nat :| Obeys(c, sub.first, sub.req, e1, e2) && e2 <= e';
        assert Hit(sub.first, c.s[e1]);
      }
    }
  }

  lemma GroupSkipped(c: Ctx, sub: Found, q: Quant, s: Scan, p: nat, e: nat, e': nat)
    requires Keeps(c, s, p, e) && e <= e' <= |c.s| && q.Q? && q.min == 0
    ensures Keeps(c, GroupStep(sub, q, s), p, e')
  {
    ObeysLonger(c, s.first, s.req, p, e, e');
  }

  // ---------- all results of a pattern ----------

  predicate AllKeep(c: Ctx, s: Scan, p: nat, rs: seq<Res>) {
    forall k :: 0 <= k < |rs| ==> Keeps(c, s, p, rs[k].pos)
  }

  predicate AllObey(c: Ctx, f: Found, p: nat, rs: seq<Res>) {
    forall k :: 0 <= k < |rs| ==> Obeys(c, f.first, f.req, p, rs[k].pos)
  }

  lemma {:induction false} BranchKeeps(c: Ctx, b: Branch, n: nat, s: Scan, p: nat, r: Res)
    requires ValidBranch(b, c.nocase)
    requires r.pos <= |c.s| && Keeps(c, s, p, r.pos)
    ensures AllKeep(c, ScanBranch(b, c.multiline, s), p, SBranch(c, b, n, r))
    decreases b, 1
  {
    hide Keeps, SItem, ScanItem, SEach;
    match b
    case Empty =>
    case Then(i, rest) =>
      ItemKeeps(c, i, n, s, p, r);
      EachKeeps(c, rest, n + CountItem(i), ScanItem(i, c.multiline, s), p, r.pos, SItem(c, i, n, r));
  }

  lemma {:induction false} EachKeeps(c: Ctx, b: Branch, n: nat, s: Scan, p: nat, lo: nat, rs: seq<Res>)
    requires ValidBranch(b, c.nocase)
    requires lo <= |c.s| && Good(c, lo, rs) && AllKeep(c, s, p, rs)
    ensures AllKeep(c, ScanBranch(b, c.multiline, s), p, SEach(c, b, n, lo, rs))
    decreases b, 2, |rs|
  {
    hide Keeps, SBranch, ScanBranch;
    if rs != [] {
      BranchKeeps(c, b, n, s, p, rs[0]);
      EachKeeps(c, b, n, s, p, lo, rs[1..]);
    }
  }

  lemma {:induction false} ItemKeeps(c: Ctx, i: Item, n: nat, s: Scan, p: nat, r: Res)
    requires ValidItem(i, c.nocase)
    requires r.pos <= |c.s| && Keeps(c, s, p, r.pos)
    ensures AllKeep(c, ScanItem(i, c.multiline, s), p, SItem(c, i, n, r))
    decreases i, 2
  {
    hide SOnce, SRep, AtomRuns, ScanGroup, GroupStep, AtomStep;
    match i
    case Assertion(op) =>
    case Atom(x, q) =>
      hide Keeps;
      var ps := AtomRuns(c, x, q, r.pos);
      forall k | 0 <= k < |ps| ensures Keeps(c, AtomStep(x, q, s), p, AtAll(r, ps)[k].pos) {
        AtomAccepts(c, x, q, r.pos, k);
        AtomKeeps(c, x, q, s, p, r.pos, ps[k]);
      }
    case Paren(_, _, _, q) =>
      hide Keeps, Obeys;
      var sub := ScanGroup(i, c.multiline, s.vary);
      var rs := SItem(c, i, n, r);
      forall k | 0 <= k < |rs| ensures Keeps(c, GroupStep(sub, q, s), p, rs[k].pos) {
        ParenKeeps(c, i, n, s, p, r, rs[k]);
      }
  }

  /** A result of a quantified group. */
  lemma {:induction false} ParenKeeps(c: Ctx, i: Item, n: nat, s: Scan, p: nat, r: Res, x: Res)
    requires ValidItem(i, c.nocase)
    requires i.Paren? && r.pos <= |c.s| && Keeps(c, s, p, r.pos) && x in SItem(c, i, n, r) && r.pos <= x.pos <= |c.s|
    ensures Keeps(c, GroupStep(ScanGroup(i, c.multiline, s.vary), i.q, s), p, x.pos)
    decreases i, 1
  {
    hide Keeps, Obeys, SOnce, SRep, ScanGroup, GroupStep;
    var q, sub := i.q, ScanGroup(i, c.multiline, s.vary);
    if q.Q? && q.min == 0 {
      GroupSkipped(c, sub, q, s, p, r.pos, x.pos);
    } else {
      GroupObeys(c, i, n, s.vary, r);
      if q.NoQ? {
        GroupOnce(c, sub, q, s, p, r.pos, x.pos, x.pos);
      } else {
        var y, z := Passages(c, i, n, q.min, q.max, q.mode == Lazy, r, x);
        if q.min > 1 { GroupObeys(c, i, n, s.vary, y); }
        GroupOnce(c, sub, q, s, p, r.pos, y.pos, x.pos);
      }
    }
  }

  lemma {:induction false} GroupObeys(c: Ctx, i: Item, n: nat, vary: bool, r: Res)
    requires ValidItem(i, c.nocase)
    requires i.Paren? && r.pos <= |c.s|
    ensures AllObey(c, ScanGroup(i, c.multiline, vary), r.pos, SOnce(c, i, n, r))
    decreases i, 0
  {
    hide SBranch, SMore, ScanBranch, ScanMore, Obeys;
    var m := Inside(i, n);
    var s := ScanBranch(i.b, c.multiline, ScanStart(vary));
    var f := Found(s.first, s.req, s.vary);
    BranchObeys(c, i.b, m, vary, r);
    MoreObeys(c, i.more, m + Count(i.b), f, r, SBranch(c, i.b, m, r));
  }

  lemma {:induction false} BranchObeys(c: Ctx, b: Branch, n: nat, vary: bool, r: Res)
    requires ValidBranch(b, c.nocase)
    requires r.pos <= |c.s|
    ensures var s := ScanBranch(b, c.multiline, ScanStart(vary));
      AllObey(c, Found(s.first, s.req, s.vary), r.pos, SBranch(c, b, n, r))
    decreases b, 2
  {
    hide SBranch, ScanBranch;
    BranchKeeps(c, b, n, ScanStart(vary), r.pos, r);
  }

  /** Merging keeps what holds of the branches before, and makes it hold of the next. */
  lemma MergeObeys(c: Ctx, f: Found, b: Scan, p: nat, e: nat)
    requires Obeys(c, f.first, f.req, p, e) || Obeys(c, b.first, b.req, p, e)
    ensures var g := Merge(f, b); Obeys(c, g.first, g.req, p, e)
  {
    var g := Merge(f, b);
    if Obeys(c, f.first, f.req, p, e) {
      if f.first.Must? { assert Hit(f.first, c.s[p]); }
      if f.req.Must? && g.req.Must? {
        var q :| (if f.first.Must? then p + 1 else p) <= q < e && q < |c.s| && Hit(f.req, c.s[q]);
        assert Hit(g.req, c.s[q]);
      }
      if f.first.Must? && g.req.Must? && !f.req.Must? { assert Hit(g.req, c.s[p]); }
    } else {
      if b.first.Must? { assert Hit(b.first, c.s[p]); }
      if b.req.Must? && g.req.Must? {
        var q :| (if b.first.Must? then p + 1 else p) <= q < e && q < |c.s| && Hit(b.req, c.s[q]);
        assert Hit(g.req, c.s[q]);
      }
      if b.first.Must? && g.req.Must? && !b.req.Must? { assert Hit(g.req, c.s[p]); }
    }
  }

  lemma {:induction false} MoreObeys(c: Ctx, m: Branches, n: nat, f: Found, r: Res, rs: seq<Res>)
    requires ValidMore(m, c.nocase)
    requires r.pos <= |c.s| && AllObey(c, f, r.pos, rs)
    ensures AllObey(c, ScanMore(m, c.multiline, f), r.pos, rs + SMore(c, m, n, r))
    decreases m, 1
  {
    hide SBranch, ScanBranch, Obeys, Merge;
    if m.Or? {
      var s := ScanBranch(m.b, c.multiline, ScanStart(f.vary));
      var xs := SBranch(c, m.b, n, r);
      BranchObeys(c, m.b, n, f.vary, r);
      var g := Merge(f, s);
      forall k | 0 <= k < |rs + xs| ensures Obeys(c, g.first, g.req, r.pos, (rs + xs)[k].pos) {
        MergeObeys(c, f, s, r.pos, (rs + xs)[k].pos);
      }
      MoreObeys(c, m.more, n + Count(m.b), g, r, rs + xs);
      assert rs + xs + SMore(c, m.more, n + Count(m.b), r) == rs + (xs + SMore(c, m.more, n + Count(m.b), r));
    } else {
      assert rs + [] == rs;
    }
  }

  // ---------- the first passages through a repeated group ----------

  lemma {:induction false} RepEachHas(c: Ctx, i: Item, n: nat, min: nat, max: int, lazy: bool, lo: nat, rs: seq<Res>, x: Res) returns (y: Res)
    requires lo <= |c.s| && i.Paren? && Good(c, lo, rs) && x in SRepEach(c, i, n, min, max, lazy, lo, rs)
    ensures y in rs && y.pos <= |c.s| && x in SRep(c, i, n, min, max, lazy, y)
    decreases |rs|
  {
    hide SRep;
    if x in SRep(c, i, n, min, max, lazy, rs[0]) { y := rs[0]; } else { y := RepEachHas(c, i, n, min, max, lazy, lo, rs[1..], x); }
  }

  lemma {:induction false} LoopEachHas(c: Ctx, i: Item, n: nat, lazy: bool, start: nat, rs: seq<Res>, x: Res) returns (y: Res)
    requires start <= |c.s| && i.Paren? && Good(c, start, rs) && x in SLoopEach(c, i, n, lazy, start, rs)
    ensures y in rs && y.pos <= |c.s| && (x == y || x in SLoop(c, i, n, lazy, y))
    decreases |rs|
  {
    hide SLoop;
    var r := rs[0];
    if x == r || x in SLoop(c, i, n, lazy, r) { y := r; } else { y := LoopEachHas(c, i, n, lazy, start, rs[1..], x); }
  }

  lemma {:induction false} Passages(c: Ctx, i: Item, n: nat, min: nat, max: int, lazy: bool, r: Res, x: Res) returns (y: Res, z: Res)
    requires i.Paren? && r.pos <= |c.s| && x in SRep(c, i, n, min, max, lazy, r) && min > 0 && (max < 0 || min <= max)
    ensures y in SOnce(c, i, n, r) && r.pos <= y.pos <= x.pos <= |c.s|
    ensures min > 1 ==> z in SOnce(c, i, n, y) && y.pos <= z.pos <= x.pos
    decreases min
  {
    hide SOnce;
    var rs := SOnce(c, i, n, r);
    if max < 0 && min <= 1 {
      assert SRep(c, i, n, min, max, lazy, r) == SLoop(c, i, n, lazy, r);
      hide SRep;
      y := LoopEachHas(c, i, n, lazy, r.pos, rs, x);
      hide SLoop;
      z := y;
    } else {
      var max' := if max < 0 then max else max - 1;
      assert SRep(c, i, n, min, max, lazy, r) == SRepEach(c, i, n, min - 1, max', lazy, r.pos, rs);
      y := RepEachHas(c, i, n, min - 1, max', lazy, r.pos, rs, x);
      z := y;
      hide SRep;
      if min > 1 {
        var z', w := Passages(c, i, n, min - 1, max', lazy, y, x);
        z := z';
      }
    }
  }

  // ---------- the same as the compiler's loops ----------

  class ByteScan {
    const multiline: bool
    var reqVaryopt: bool

    constructor (multiline: bool)
      ensures this.multiline == multiline && !reqVaryopt
    {
      this.multiline, reqVaryopt := multiline, false;
    }

    /** compile_branch, as far as these bytes go. */
    method Branch(b0: Branch) returns (firstbyte: Req, reqbyte: Req)
      modifies this`reqVaryopt
      ensures var s := ScanBranch(b0, multiline, ScanStart(old(reqVaryopt)));
        firstbyte == s.first && reqbyte == s.req && reqVaryopt == s.vary
      decreases b0, 1
    {
      hide ScanGroup, Merge, AtomStep, GroupStep;
      var s := ScanStart(reqVaryopt);
      var b := b0;
      while b.Then?
        invariant b == b0 || b < b0
        invariant s.vary == reqVaryopt
        invariant ScanBranch(b, multiline, s) == ScanBranch(b0, multiline, ScanStart(old(reqVaryopt)))
        decreases b
      {
        match b.i {
          case Assertion(op) =>
            if op == OP_CIRC && multiline && s.first == Unset { s := s.(first := NoByte); }
          case Atom(x, q) =>
            s := Atom(x, q, s);
          case Paren(_, _, _, q) =>
            var subfirst, subreq := Group(b.i);
            s := AfterGroup(subfirst, subreq, q, s);
        }
        b := b.rest;
      }
      firstbyte, reqbyte := s.first, s.req;
    }

    method Atom(x: Single, q: Quant, s0: Scan) returns (s: Scan)
      requires s0.vary == reqVaryopt
      modifies this`reqVaryopt
      ensures s == AtomStep(x, q, s0) && s.vary == reqVaryopt
    {
      var firstbyte, reqbyte, zerofirst := s0.first, s0.req, s0.first;
      if x.Lit? && firstbyte == Unset {
        zerofirst := NoByte;
        firstbyte := Must(x.c, x.nocase, false);
      } else if x.Lit? {
        reqbyte := Must(x.c, x.nocase, reqVaryopt);
      } else {
        if firstbyte == Unset { firstbyte := NoByte; }
        zerofirst := firstbyte;
      }
      if q.Q? {
        if q.min == 0 { firstbyte, reqbyte := zerofirst, s0.req; }
        if x.Lit? && q.min > 1 { reqbyte := Must(x.c, x.nocase, reqVaryopt); }
        if q.min != q.max { reqVaryopt := true; }
      }
      s := Scan(firstbyte, reqbyte, zerofirst, s0.req, s0.groupSet, reqVaryopt);
    }

    /** After the group has been compiled (s0 holds what was so before it). */
    method AfterGroup(subfirst: Req, subreq0: Req, q: Quant, s0: Scan) returns (s: Scan)
      modifies this`reqVaryopt
      ensures s == GroupStep(Found(subfirst, subreq0, old(reqVaryopt)), q, s0) && s.vary == reqVaryopt
    {
      var firstbyte, reqbyte, zerofirst, groupset, subreq := s0.first, s0.req, s0.first, false, subreq0;
      if firstbyte == Unset {
        if subfirst.Must? { firstbyte, groupset := subfirst, true; } else { firstbyte := NoByte; }
        zerofirst := NoByte;
      } else if subfirst.Must? && !subreq.Must? {
        subreq := subfirst.Vary(s0.vary);
      }
      if subreq.Must? { reqbyte := subreq; }
      if q.Q? {
        if q.min == 0 { firstbyte, reqbyte := zerofirst, s0.req; }
        if q.min > 1 && groupset && !reqbyte.Must? { reqbyte := firstbyte; }
        if q.min != q.max { reqVaryopt := true; }
      }
      s := Scan(firstbyte, reqbyte, zerofirst, s0.req, groupset, reqVaryopt);
    }

    /** compile_regex: the branches must agree. */
    method Group(i: Item) returns (firstbyte: Req, reqbyte: Req)
      requires i.Paren?
      modifies this`reqVaryopt
      ensures Found(firstbyte, reqbyte, reqVaryopt) == ScanGroup(i, multiline, old(reqVaryopt))
      decreases i, 0
    {
      hide ScanBranch;
      firstbyte, reqbyte := Branch(i.b);
      var m := i.more;
      while m.Or?
        invariant m == i.more || m < i.more
        invariant ScanMore(m, multiline, Found(firstbyte, reqbyte, reqVaryopt)) == ScanGroup(i, multiline, old(reqVaryopt))
        decreases m
      {
        var branchfirst, branchreq := Branch(m.b);
        if firstbyte.Must? && firstbyte != branchfirst {
          if !reqbyte.Must? { reqbyte := firstbyte; }
          firstbyte := NoByte;
        }
        if !firstbyte.Must? && branchfirst.Must? && !branchreq.Must? { branchreq := branchfirst; }
        if reqbyte.Plain() != branchreq.Plain() {
          reqbyte := NoByte;
        } else if branchreq.Must? {
          reqbyte := reqbyte.Vary(branchreq.vary);
        }
        m := m.more;
      }
    }
  }
}
