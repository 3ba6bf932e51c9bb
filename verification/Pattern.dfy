/** Patterns as written, with their quantifiers, and their ordered-choice meaning. */
module Pattern {
  import opened Bytes
  import opened Code
  import opened Semantics

  /** {min,max}; a maximum of -1 is "no limit". */
  datatype Quant = NoQ | Q(min: nat, max: int, mode: Mode)

  datatype Item =
    | Assertion(op: Byte)
    | Atom(x: Single, q: Quant)
    | Paren(capturing: bool, b: Branch, more: Branches, q: Quant)

  datatype Branch = Empty | Then(i: Item, rest: Branch)

  datatype Branches = NoMore | Or(b: Branch, more: Branches)

  // ---------- capture numbers ----------

  /** Capturing parentheses in a branch; they are numbered from the left. */
  function Count(b: Branch): nat {
    match b
    case Empty => 0
    case Then(i, rest) => CountItem(i) + Count(rest)
  }

  function CountItem(i: Item): nat {
    if i.Paren? then (if i.capturing then 1 else 0) + Count(i.b) + CountMore(i.more) else 0
  }

  function CountMore(m: Branches): nat {
    match m
    case NoMore => 0
    case Or(b, more) => Count(b) + CountMore(more)
  }

  /** The number of the group i, when n are open or closed before it. */
  function CapOf(i: Item, n: nat): nat { if i.Paren? && i.capturing then n + 1 else 0 }

  /** The number of groups before the first branch of i. */
  function Inside(i: Item, n: nat): nat { if i.Paren? && i.capturing then n + 1 else n }

  // ---------- validity ----------

  predicate ValidQuant(q: Quant) {
    q.Q? ==> q.min < 0x1_0000 && (q.max == -1 || q.min <= q.max < 0x1_0000)
  }

  /** A possessive repeat of a single item that has no opcode of its own: it is put into
      an atomic bracket. */
  predicate Wrapped(x: Single, q: Quant) {
    q.Q? && q.mode == Possessive && q.max != 0 && (x.Class? || (q.min == 1 && q.max > 1))
  }

  /** And so is every possessive repeat of a group. */
  predicate WrappedGroup(q: Quant) { q.Q? && q.mode == Possessive && q.max != 0 }

  predicate ValidBranch(b: Branch, nocase: bool) {
    match b
    case Empty => true
    case Then(i, rest) => ValidItem(i, nocase) && ValidBranch(rest, nocase)
  }

  predicate ValidItem(i: Item, nocase: bool) {
    match i
    case Assertion(op) => op in {OP_SOD, OP_EODN, OP_EOD, OP_CIRC, OP_DOLL}
    case Atom(x, q) => ValidSingle(x, nocase) && ValidQuant(q)
    case Paren(_, b, more, q) => ValidBranch(b, nocase) && ValidMore(more, nocase) && ValidQuant(q)
  }

  predicate ValidMore(m: Branches, nocase: bool) {
    match m
    case NoMore => true
    case Or(b, more) => ValidBranch(b, nocase) && ValidMore(more, nocase)
  }

  lemma ThenValid(i: Item, rest: Branch, nocase: bool)
    ensures ValidBranch(Then(i, rest), nocase) <==> ValidItem(i, nocase) && ValidBranch(rest, nocase)
  {
  }

  lemma ParenValid(i: Item, nocase: bool)
    requires i.Paren?
    ensures ValidItem(i, nocase) <==> ValidBranch(i.b, nocase) && ValidMore(i.more, nocase) && ValidQuant(i.q)
  {
  }

  lemma OrValid(b: Branch, more: Branches, nocase: bool)
    ensures ValidMore(Or(b, more), nocase) <==> ValidBranch(b, nocase) && ValidMore(more, nocase)
    ensures ValidMore(NoMore, nocase) && ValidBranch(Empty, nocase)
  {
  }

  // Patterns that are compiled without atomic brackets.

  predicate NoAtomic(b: Branch) {
    match b
    case Empty => true
    case Then(i, rest) => NoAtomicItem(i) && NoAtomic(rest)
  }

  predicate NoAtomicItem(i: Item) {
    match i
    case Assertion(_) => true
    case Atom(x, q) => !Wrapped(x, q)
    case Paren(_, b, more, q) => !WrappedGroup(q) && NoAtomic(b) && NoAtomicMore(more)
  }

  predicate NoAtomicMore(m: Branches) {
    match m
    case NoMore => true
    case Or(b, more) => NoAtomic(b) && NoAtomicMore(more)
  }

  // ---------- meaning ----------

  /** A quantified atom. */
  function AtomRuns(c: Ctx, x: Single, q: Quant, pos: nat): (out: seq<nat>)
    requires pos <= |c.s|
    ensures forall i :: 0 <= i < |out| ==> pos <= out[i] <= |c.s|
  {
    match q
    case NoQ => Runs(c, x, 1, 1, false, pos)
    case Q(min, max, mode) =>
      var l := Runs(c, x, min, max, mode == Lazy, pos);
      if mode == Possessive && l != [] then [l[0]] else l
  }

  function CloseAll(cap: nat, start: nat, rs: seq<Res>): (out: seq<Res>)
    ensures |out| == |rs| && forall i :: 0 <= i < |rs| ==> out[i] == Close(cap, start, rs[i])
  {
    seq(|rs|, i requires 0 <= i < |rs| => Close(cap, start, rs[i]))
  }

  function SBranch(c: Ctx, b: Branch, n: nat, r: Res): (out: seq<Res>)
    requires r.pos <= |c.s|
    ensures Good(c, r.pos, out)
    decreases |c.s| - r.pos, b, 1
  {
    match b
    case Empty => [r]
    case Then(i, rest) => SEach(c, rest, n + CountItem(i), r.pos, SItem(c, i, n, r))
  }

  function SEach(c: Ctx, b: Branch, n: nat, lo: nat, rs: seq<Res>): (out: seq<Res>)
    requires lo <= |c.s| && Good(c, lo, rs)
    ensures Good(c, lo, out)
    decreases |c.s| - lo, b, 2, |rs|
  {
    if rs == [] then [] else SBranch(c, b, n, rs[0]) + SEach(c, b, n, lo, rs[1..])
  }

  function SMore(c: Ctx, m: Branches, n: nat, r: Res): (out: seq<Res>)
    requires r.pos <= |c.s|
    ensures Good(c, r.pos, out)
    decreases |c.s| - r.pos, m, 1
  {
    match m
    case NoMore => []
    case Or(b, more) => SBranch(c, b, n, r) + SMore(c, more, n + Count(b), r)
  }

  function SItem(c: Ctx, i: Item, n: nat, r: Res): (out: seq<Res>)
    requires r.pos <= |c.s|
    ensures Good(c, r.pos, out)
    decreases |c.s| - r.pos, i, 9
  {
    match i
    case Assertion(op) => if ZeroOk(c, op, r.pos) then [r] else []
    case Atom(x, q) => AtAll(r, AtomRuns(c, x, q, r.pos))
    case Paren(_, _, _, NoQ) => SOnce(c, i, n, r)
    case Paren(_, _, _, Q(min, max, mode)) =>
      var rs := SRep(c, i, n, min, max, mode == Lazy, r);
      if mode == Possessive then First(rs) else rs
  }

  /** One passage through the group i. */
  function SOnce(c: Ctx, i: Item, n: nat, r: Res): (out: seq<Res>)
    requires r.pos <= |c.s| && i.Paren?
    ensures Good(c, r.pos, out)
    decreases |c.s| - r.pos, i, 3
  {
    var m := Inside(i, n);
    CloseAll(CapOf(i, n), r.pos, SBranch(c, i.b, m, r) + SMore(c, i.more, m + Count(i.b), r))
  }

  /** Group i, min to max times. */
  function SRep(c: Ctx, i: Item, n: nat, min: nat, max: int, lazy: bool, r: Res): (out: seq<Res>)
    requires r.pos <= |c.s| && i.Paren?
    ensures Good(c, r.pos, out)
    decreases |c.s| - r.pos, i, 5, if max < 0 then min else max, 0
  {
    if max == 0 then [r]
    else if max < 0 && min <= 1 then
      var loop := SLoop(c, i, n, lazy, r);
      if min == 1 then loop else if lazy then [r] + loop else loop + [r]
    else
      var again := SRepEach(c, i, n, if min > 0 then min - 1 else 0, if max < 0 then max else max - 1, lazy,
                            r.pos, SOnce(c, i, n, r));
      if min > 0 then again else if lazy then [r] + again else again + [r]
  }

  function SRepEach(c: Ctx, i: Item, n: nat, min: nat, max: int, lazy: bool, lo: nat, rs: seq<Res>): (out: seq<Res>)
    requires lo <= |c.s| && i.Paren? && Good(c, lo, rs)
    ensures Good(c, lo, out)
    decreases |c.s| - lo, i, 5, if max < 0 then min else max, 1 + |rs|
  {
    if rs == [] then [] else SRep(c, i, n, min, max, lazy, rs[0]) + SRepEach(c, i, n, min, max, lazy, lo, rs[1..])
  }

  /** Group i once or more, without limit; an iteration that consumed nothing is
      the last. */
  function SLoop(c: Ctx, i: Item, n: nat, lazy: bool, r: Res): (out: seq<Res>)
    requires r.pos <= |c.s| && i.Paren?
    ensures Good(c, r.pos, out)
    decreases |c.s| - r.pos, i, 4, 0
  {
    SLoopEach(c, i, n, lazy, r.pos, SOnce(c, i, n, r))
  }

  function SLoopEach(c: Ctx, i: Item, n: nat, lazy: bool, start: nat, rs: seq<Res>): (out: seq<Res>)
    requires start <= |c.s| && i.Paren? && Good(c, start, rs)
    ensures Good(c, start, out)
    decreases |c.s| - start, i, 3, 1 + |rs|
  {
    if rs == [] then []
    else
      var r := rs[0];
      (if r.pos <= start then [r]
       else if lazy then [r] + SLoop(c, i, n, lazy, r)
       else SLoop(c, i, n, lazy, r) + [r])
      + SLoopEach(c, i, n, lazy, start, rs[1..])
  }
}
