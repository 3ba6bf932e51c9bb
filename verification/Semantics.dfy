/** Ordered-choice meaning of compiled items: every way of matching, as a list in
    the order in which a backtracking matcher must try them. */
module Semantics {
  import opened Bytes
  import opened Code

  /** Subject and the options that a match depends on. */
  datatype Ctx = Ctx(s: seq<Byte>, nocase: bool, multiline: bool, endonly: bool,
                     notbol: bool, noteol: bool, notempty: bool)

  /** A partial match: subject position, capture offsets (two per group), and one
      more than twice the highest group captured so far. */
  datatype Res = Res(pos: nat, vec: seq<int>, top: nat)

  // ---------- single items ----------

  predicate TypeOk(op: Byte, b: Byte) {
    if op == OP_NOT_DIGIT then !IsDigit(b)
    else if op == OP_DIGIT then IsDigit(b)
    else if op == OP_NOT_WHITESPACE then !IsSpace(b)
    else if op == OP_WHITESPACE then IsSpace(b)
    else if op == OP_NOT_WORDCHAR then !IsWord(b)
    else if op == OP_WORDCHAR then IsWord(b)
    else if op == OP_ANY then b != NEWLINE
    else op == OP_ALLANY
  }

  predicate Accepts(x: Single, b: Byte) {
    match x
    case Lit(c, nocase) => if nocase then Lcc(c) == Lcc(b) else c == b
    case NotLit(c, nocase) => if nocase then Lcc(c) != Lcc(b) else c != b
    case Type(op) => TypeOk(op, b)
    case Class(_, bits) => |bits| == 32 && BitSet(bits, b)
  }

  predicate AcceptsAt(c: Ctx, x: Single, pos: nat) {
    pos < |c.s| && Accepts(x, c.s[pos])
  }

  predicate NewlineAt(c: Ctx, pos: nat) { pos < |c.s| && c.s[pos] == NEWLINE }

  predicate ZeroOk(c: Ctx, op: Byte, pos: nat) {
    if op == OP_CIRC then
      !(c.notbol && pos == 0) &&
      (pos == 0 || (c.multiline && pos < |c.s| && NewlineAt(c, pos - 1)))
    else if op == OP_SOD then pos == 0
    else if op == OP_DOLL && c.multiline then
      if pos < |c.s| then NewlineAt(c, pos) else !c.noteol
    else if op == OP_DOLL then
      !c.noteol && (pos >= |c.s| || (!c.endonly && NewlineAt(c, pos) && pos == |c.s| - 1))
    else if op == OP_EOD then pos >= |c.s|
    else op == OP_EODN && (pos >= |c.s| || (NewlineAt(c, pos) && pos == |c.s| - 1))
  }

  /** End positions of x repeated min to max times (-1: no limit) from pos: the
      longest first, or the shortest first when lazy. */
  function Runs(c: Ctx, x: Single, min: nat, max: int, lazy: bool, pos: nat): (out: seq<nat>)
    requires pos <= |c.s|
    ensures forall i :: 0 <= i < |out| ==> pos <= out[i] <= |c.s|
    decreases |c.s| - pos
  {
    var more :=
      if max != 0 && AcceptsAt(c, x, pos)
      then Runs(c, x, if min > 0 then min - 1 else 0, if max < 0 then max else max - 1, lazy, pos + 1)
      else [];
    if min > 0 then more else if lazy then [pos] + more else more + [pos]
  }

  /** A possessive repeat keeps only the first choice of the greedy one. */
  function KindRuns(c: Ctx, x: Single, k: Kind, pos: nat): (out: seq<nat>)
    requires pos <= |c.s|
    ensures forall i :: 0 <= i < |out| ==> pos <= out[i] <= |c.s|
  {
    var l := Runs(c, x, k.Min(), k.Max(), k.M() == Lazy, pos);
    if k.M() == Possessive && l != [] then [l[0]] else l
  }

  // ---------- result lists ----------

  /** Every result lies between lo and the end of the subject. */
  predicate Good(c: Ctx, lo: nat, rs: seq<Res>) {
    forall i :: 0 <= i < |rs| ==> lo <= rs[i].pos <= |c.s|
  }

  function AtAll(r: Res, ps: seq<nat>): (out: seq<Res>)
    ensures |out| == |ps|
    ensures forall i :: 0 <= i < |ps| ==> out[i] == r.(pos := ps[i])
  {
    seq(|ps|, i requires 0 <= i < |ps| => r.(pos := ps[i]))
  }

  /** Only the first choice is kept. */
  function First(rs: seq<Res>): (out: seq<Res>)
    ensures out <= rs && |out| <= 1
  {
    if rs == [] then [] else [rs[0]]
  }

  /** Record a capture at a closing bracket, when the vector has room for it. */
  function Close(cap: nat, start: nat, r: Res): Res {
    if cap == 0 || 2 * cap + 1 >= |r.vec| then r
    else Res(r.pos, r.vec[2 * cap := start][2 * cap + 1 := r.pos],
             if r.top <= 2 * cap then 2 * cap + 2 else r.top)
  }

  function AllNodes(c: Ctx, ns: Nodes, r: Res): (out: seq<Res>)
    requires r.pos <= |c.s|
    ensures Good(c, r.pos, out)
    decreases |c.s| - r.pos, ns, 1
  {
    match ns
    case Nil => [r]
    case Cons(n, rest) => Each(c, rest, r.pos, AllNode(c, n, r))
  }

  function AllNode(c: Ctx, n: Node, r: Res): (out: seq<Res>)
    requires r.pos <= |c.s|
    ensures Good(c, r.pos, out)
    decreases |c.s| - r.pos, n, 0
  {
    match n
    case Zero(op) => if ZeroOk(c, op, r.pos) then [r] else []
    case One(x) => if AcceptsAt(c, x, r.pos) then [r.(pos := r.pos + 1)] else []
    case Rep(x, k) => AtAll(r, KindRuns(c, x, k, r.pos))
    case Grp(NoPrefix, g) => AllGroup(c, g, r)
    case Grp(BraZero, g) => AllGroup(c, g, r) + [r]
    case Grp(BraMinZero, g) => [r] + AllGroup(c, g, r)
    case Grp(SkipZero, g) => [r]
    case Once(ns) => First(AllNodes(c, ns, r))
  }

  /** The items ns after each of the results rs. */
  function Each(c: Ctx, ns: Nodes, lo: nat, rs: seq<Res>): (out: seq<Res>)
    requires lo <= |c.s| && Good(c, lo, rs)
    ensures Good(c, lo, out)
    decreases |c.s| - lo, ns, 2, |rs|
  {
    if rs == [] then [] else AllNodes(c, ns, rs[0]) + Each(c, ns, lo, rs[1..])
  }

  function AllGroup(c: Ctx, g: Group, r: Res): (out: seq<Res>)
    requires r.pos <= |c.s|
    ensures Good(c, r.pos, out)
    decreases |c.s| - r.pos, g, 3
  {
    AfterKet(c, g, r.pos, AllNodes(c, g.b, r) + AllAlts(c, g.more, r))
  }

  function AllAlts(c: Ctx, a: Alts, r: Res): (out: seq<Res>)
    requires r.pos <= |c.s|
    ensures Good(c, r.pos, out)
    decreases |c.s| - r.pos, a, 1
  {
    match a
    case NoAlt => []
    case Alt(b, more) => AllNodes(c, b, r) + AllAlts(c, more, r)
  }

  /** What follows from reaching the ket of g, entered at start, with each of rs. */
  function AfterKet(c: Ctx, g: Group, start: nat, rs: seq<Res>): (out: seq<Res>)
    requires start <= |c.s| && Good(c, start, rs)
    ensures Good(c, start, out)
    decreases |c.s| - start, g, 2, |rs|
  {
    if rs == [] then [] else KetChoice(c, g, start, rs[0]) + AfterKet(c, g, start, rs[1..])
  }

  /** An unlimited repeat goes round again or goes on, in the order it asks for;
      an iteration that consumed nothing is never repeated. */
  function KetChoice(c: Ctx, g: Group, start: nat, r0: Res): (out: seq<Res>)
    requires start <= r0.pos <= |c.s|
    ensures Good(c, start, out)
    decreases |c.s| - start, g, 2, 0
  {
    var r := Close(g.cap, start, r0);
    if g.ket == Ket || r.pos <= start then [r]
    else if g.ket == KetRMax then AllGroup(c, g, r) + [r]
    else [r] + AllGroup(c, g, r)
  }

  // ---------- distribution over concatenation ----------

  lemma {:induction false} EachAppend(c: Ctx, ns: Nodes, lo: nat, a: seq<Res>, b: seq<Res>)
    requires lo <= |c.s| && Good(c, lo, a) && Good(c, lo, b)
    ensures Good(c, lo, a + b)
    ensures Each(c, ns, lo, a + b) == Each(c, ns, lo, a) + Each(c, ns, lo, b)
    decreases |a|
  {
    if a == [] {
      assert a + b == b;
    } else {
      var t := a[1..] + b;
      assert (a + b)[1..] == t && (a + b)[0] == a[0];
      EachAppend(c, ns, lo, a[1..], b);
      var x := AllNodes(c, ns, a[0]);
      assert Each(c, ns, lo, a + b) == x + Each(c, ns, lo, t);
      assert Each(c, ns, lo, a) == x + Each(c, ns, lo, a[1..]);
    }
  }

  lemma {:induction false} AfterKetAppend(c: Ctx, g: Group, start: nat, a: seq<Res>, b: seq<Res>)
    requires start <= |c.s| && Good(c, start, a) && Good(c, start, b)
    ensures Good(c, start, a + b)
    ensures AfterKet(c, g, start, a + b) == AfterKet(c, g, start, a) + AfterKet(c, g, start, b)
    decreases |a|
  {
    if a == [] {
      assert a + b == b;
    } else {
      var t := a[1..] + b;
      assert (a + b)[1..] == t && (a + b)[0] == a[0];
      AfterKetAppend(c, g, start, a[1..], b);
      var x := KetChoice(c, g, start, a[0]);
      assert AfterKet(c, g, start, a + b) == x + AfterKet(c, g, start, t);
      assert AfterKet(c, g, start, a) == x + AfterKet(c, g, start, a[1..]);
    }
  }

  /** The lower bound carried by Each only serves termination. */
  lemma {:induction false} EachLo(c: Ctx, ns: Nodes, lo: nat, lo': nat, rs: seq<Res>)
    requires lo <= |c.s| && Good(c, lo, rs) && lo' <= |c.s| && Good(c, lo', rs)
    ensures Each(c, ns, lo, rs) == Each(c, ns, lo', rs)
    decreases |rs|
  {
    if rs != [] { EachLo(c, ns, lo, lo', rs[1..]); }
  }
}
