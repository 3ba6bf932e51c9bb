/** What match() computes on the bytecode, with its call and depth limits, its
    capture vector and its chain of remembered subject positions. Code that the
    compiler cannot have written ends with UNKNOWN_OPCODE. */
module Machine {
  import opened Bytes
  import opened Code
  import opened Layout
  import opened Semantics

  datatype RC = MATCH | NOMATCH | MATCHLIMIT | RECURSIONLIMIT | UNKNOWN_OPCODE

  /** The part of match_data that a match does not change. */
  datatype Md = Md(code: seq<Byte>, c: Ctx, limit: nat, rlimit: nat, offsetEnd: nat, mstart: nat)
  {
    function OffsetMax(): nat { 2 * offsetEnd / 3 }
  }

  /** The part of match_data that it does change. */
  datatype State = State(count: nat, vec: seq<int>, overflow: bool, endPtr: nat, endTop: nat)

  datatype Out = Out(rc: RC, st: State)

  /** Arguments of one incarnation of match(): subject and code positions, offset
      high water mark, chain of group start positions (latest first), depth. */
  datatype Frame = Frame(eptr: nat, pc: nat, top: nat, chain: seq<nat>, rdepth: nat)

  ghost predicate Wf(md: Md, st: State, f: Frame) {
    md.offsetEnd % 3 == 0 && |st.vec| == md.offsetEnd && st.count <= md.limit && f.eptr <= |md.c.s|
  }

  ghost predicate Later(md: Md, st: State, o: Out) {
    st.count <= o.st.count && |o.st.vec| == md.offsetEnd &&
    (o.rc in {MATCH, NOMATCH} ==> o.st.count <= md.limit)
  }

  // ---------- decoding ----------

  /** A possibly repeated single item at pc, and where the code goes on. */
  datatype Repeat = Repeat(x: Single, min: nat, max: int, lazy: bool, poss: bool, next: nat)

  predicate IsRepeatOp(op: Byte) {
    OP_CHAR <= op < OP_CRSTAR || op == OP_CLASS || op == OP_NCLASS || OP_NOT_DIGIT <= op <= OP_ALLANY
  }

  function FamilyItem(md: Md, fam: int, arg: Byte): Single {
    if fam == 0 then Lit(arg, md.c.nocase)
    else if fam == 1 then NotLit(arg, md.c.nocase)
    else Type(arg)
  }

  /** The three single-character families: off is the opcode's place in its family. */
  function FamilyRepeat(md: Md, pc: nat): Repeat {
    var i := At(md.code, pc) as int - OP_STAR as int;
    FamilyDecode(md, pc, i / 13, i % 13)
  }

  function FamilyDecode(md: Md, pc: nat, fam: int, off: int): Repeat {
    var code, n := md.code, Get(md.code, pc + 1);
    if off == 8 then Repeat(FamilyItem(md, fam, At(code, pc + 3)), n, n, false, false, pc + 4)
    else if off == 6 || off == 7 || off == 12 then
      Repeat(FamilyItem(md, fam, At(code, pc + 3)), 0, n, off == 7, off == 12, pc + 4)
    else
      var x := FamilyItem(md, fam, At(code, pc + 1));
      if off == 9 then Repeat(x, 0, -1, false, true, pc + 2)
      else if off == 10 then Repeat(x, 1, -1, false, true, pc + 2)
      else if off == 11 then Repeat(x, 0, 1, false, true, pc + 2)
      else SimpleRepeat(x, off, pc + 2)
  }

  /** rep_min and rep_max for the six commonest repeats. */
  function SimpleRepeat(x: Single, off: int, next: nat): Repeat {
    Repeat(x, if off / 2 == 1 then 1 else 0, if off / 2 == 2 then 1 else -1, off % 2 == 1, false, next)
  }

  /** A class may be followed by a repeat item. */
  function ClassRepeat(code: seq<Byte>, pc: nat): Repeat
    requires pc + 33 <= |code|
  {
    var x := Class(code[pc] == OP_NCLASS, code[pc + 1..pc + 33]);
    var op := At(code, pc + 33);
    if OP_CRSTAR <= op <= OP_CRMINQUERY then SimpleRepeat(x, op - OP_CRSTAR, pc + 34)
    else if op == OP_CRRANGE || op == OP_CRMINRANGE then
      var max := Get(code, pc + 36);
      Repeat(x, Get(code, pc + 34), if max == 0 then -1 else max, op == OP_CRMINRANGE, false, pc + 38)
    else Repeat(x, 1, 1, false, false, pc + 33)
  }

  function DecodeRepeat(md: Md, pc: nat): Repeat {
    var op := At(md.code, pc);
    if op == OP_CHAR || op == OP_CHARNC then
      Repeat(Lit(At(md.code, pc + 1), op == OP_CHARNC), 1, 1, false, false, pc + 2)
    else if op == OP_NOT then
      Repeat(NotLit(At(md.code, pc + 1), md.c.nocase), 1, 1, false, false, pc + 2)
    else if OP_STAR <= op < OP_CRSTAR then FamilyRepeat(md, pc)
    else if (op == OP_CLASS || op == OP_NCLASS) && pc + 33 <= |md.code| then ClassRepeat(md.code, pc)
    else Repeat(Type(op), 1, 1, false, false, pc + 1)
  }

  // ---------- scanning the subject ----------

  predicate MinOk(c: Ctx, x: Single, pos: nat, n: nat)
    ensures MinOk(c, x, pos, n) && n > 0 ==> pos + n <= |c.s|
    decreases n
  {
    n == 0 || (AcceptsAt(c, x, pos) && MinOk(c, x, pos + 1, n - 1))
  }

  function Longest(c: Ctx, x: Single, pos: nat, n: int): (e: nat)
    requires pos <= |c.s|
    ensures pos <= e <= |c.s|
    decreases |c.s| - pos
  {
    if n != 0 && AcceptsAt(c, x, pos) then Longest(c, x, pos + 1, if n < 0 then n else n - 1) else pos
  }

  // ---------- the matcher ----------

  /** One call of match(): the limit checks, and the new block on the chain for a
      group that could match an empty string. */
  function Call(md: Md, st: State, f: Frame, cbegroup: bool): (o: Out)
    requires Wf(md, st, f)
    ensures Later(md, st, o)
    decreases md.limit - st.count, 0, 0
  {
    var st' := st.(count := st.count + 1);
    if st.count >= md.limit then Out(MATCHLIMIT, st')
    else if f.rdepth >= md.rlimit then Out(RECURSIONLIMIT, st')
    else Run(md, st', if cbegroup then f.(chain := [f.eptr] + f.chain) else f)
  }

  /** RMATCH: one level deeper. */
  function Deeper(md: Md, st: State, f: Frame, cbegroup: bool): (o: Out)
    requires Wf(md, st, f)
    ensures Later(md, st, o)
    decreases md.limit - st.count, 0, 1
  {
    Call(md, st, f.(rdepth := f.rdepth + 1), cbegroup)
  }

  /** The opcode loop. */
  function Run(md: Md, st: State, f: Frame): (o: Out)
    requires Wf(md, st, f)
    ensures Later(md, st, o)
    decreases md.limit - st.count, 1, |md.code| - f.pc, 2
  {
    var code, pc := md.code, f.pc;
    var op := At(code, pc);
    if op == OP_END then
      if md.c.notempty && f.eptr == md.mstart then Out(NOMATCH, st)
      else Out(MATCH, st.(endPtr := f.eptr, endTop := f.top))
    else if op in {OP_SOD, OP_EODN, OP_EOD, OP_CIRC, OP_DOLL} then
      if ZeroOk(md.c, op, f.eptr) then Run(md, st, f.(pc := pc + 1)) else Out(NOMATCH, st)
    else if IsRepeatOp(op) then RunRepeat(md, st, f, DecodeRepeat(md, pc))
    else if op == OP_CBRA || op == OP_SCBRA || op == OP_BRA || op == OP_SBRA then RunBra(md, st, f)
    else if op == OP_ALT then
      var ket := SkipAlts(code, pc);
      if ket == pc then Out(UNKNOWN_OPCODE, st) else Run(md, st, f.(pc := ket))
    else if op == OP_BRAZERO then
      var o := Deeper(md, st, f.(pc := pc + 1), false);
      if o.rc != NOMATCH then o else Run(md, o.st, f.(pc := SkipAlts(code, pc + 1) + 3))
    else if op == OP_BRAMINZERO then
      var o := Deeper(md, st, f.(pc := SkipAlts(code, pc + 1) + 3), false);
      if o.rc != NOMATCH then o else Run(md, o.st, f.(pc := pc + 1))
    else if op == OP_SKIPZERO then Run(md, st, f.(pc := SkipAlts(code, pc + 1) + 3))
    else if OP_KET <= op <= OP_KETRMIN then RunKet(md, st, f)
    else Out(UNKNOWN_OPCODE, st)
  }

  function RunRepeat(md: Md, st: State, f: Frame, d: Repeat): (o: Out)
    requires Wf(md, st, f) && f.pc < |md.code| && f.pc < d.next
    ensures Later(md, st, o)
    decreases md.limit - st.count, 1, |md.code| - f.pc, 1
  {
    if !MinOk(md.c, d.x, f.eptr, d.min) then Out(NOMATCH, st)
    else
      var first := f.eptr + d.min;
      if d.min == d.max then Run(md, st, f.(eptr := first, pc := d.next))
      else if d.lazy then Lazily(md, st, f.(eptr := first, pc := d.next), d, d.min)
      else
        var last := Longest(md.c, d.x, first, if d.max < 0 then -1 else if d.max < d.min then 0 else d.max - d.min);
        if d.poss then Run(md, st, f.(eptr := last, pc := d.next))
        else WalkBack(md, st, f.(eptr := last, pc := d.next), first)
  }

  /** Minimizing: try the rest, then take one more byte. fi counts those taken. */
  function Lazily(md: Md, st: State, f: Frame, d: Repeat, fi: nat): (o: Out)
    requires Wf(md, st, f)
    ensures Later(md, st, o)
    decreases md.limit - st.count, 1, |md.code| - f.pc, 3, |md.c.s| - f.eptr
  {
    var o := Deeper(md, st, f, false);
    if o.rc != NOMATCH then o
    else if (d.max >= 0 && fi >= d.max) || !AcceptsAt(md.c, d.x, f.eptr) then Out(NOMATCH, o.st)
    else Lazily(md, o.st, f.(eptr := f.eptr + 1), d, fi + 1)
  }

  /** Maximizing: try the rest from the longest run back to its minimum. */
  function WalkBack(md: Md, st: State, f: Frame, pp: nat): (o: Out)
    requires Wf(md, st, f)
    ensures Later(md, st, o)
    decreases md.limit - st.count, 1, |md.code| - f.pc, 3, f.eptr
  {
    if f.eptr < pp then Out(NOMATCH, st)
    else
      var o := Deeper(md, st, f, false);
      if o.rc != NOMATCH || f.eptr == 0 then o else WalkBack(md, o.st, f.(eptr := f.eptr - 1), pp)
  }

  /** An opening bracket. A capturing one saves the start in the working slot at
      the top of the vector, and restores its three slots when it fails. */
  function RunBra(md: Md, st: State, f: Frame): (o: Out)
    requires Wf(md, st, f) && f.pc < |md.code|
    ensures Later(md, st, o)
    decreases md.limit - st.count, 1, |md.code| - f.pc, 1
  {
    var op := md.code[f.pc];
    var cbe := op >= OP_SBRA;
    var n := Get(md.code, f.pc + 3);
    if (op == OP_CBRA || op == OP_SCBRA) && 0 < 2 * n < md.OffsetMax() then
      var o := CapAlts(md, st.(vec := st.vec[md.offsetEnd - n := f.eptr]), f, cbe);
      if o.rc != NOMATCH then o
      else Out(NOMATCH, o.st.(vec := Restore(o.st.vec, st.vec, n, md.offsetEnd)))
    else BraAlts(md, st, f, cbe)
  }

  function Restore(vec: seq<int>, saved: seq<int>, n: nat, end: nat): (v: seq<int>)
    requires |vec| == |saved| == end && 0 < n <= end && 2 * n + 1 < end
    ensures |v| == end
  {
    vec[2 * n := saved[2 * n]][2 * n + 1 := saved[2 * n + 1]][end - n := saved[end - n]]
  }

  /** Length of the item that opens a branch. */
  function OpenLen(op: Byte): nat { if op == OP_CBRA || op == OP_SCBRA then 5 else 3 }

  /** The branches of a capturing bracket, in order. */
  function CapAlts(md: Md, st: State, f: Frame, cbe: bool): (o: Out)
    requires Wf(md, st, f)
    ensures Later(md, st, o)
    decreases md.limit - st.count, 1, |md.code| - f.pc, 0
  {
    var o := Deeper(md, st, f.(pc := f.pc + OpenLen(At(md.code, f.pc))), cbe);
    if o.rc != NOMATCH then o
    else
      var next := f.pc + Get(md.code, f.pc + 1);
      if f.pc < next && At(md.code, next) == OP_ALT then CapAlts(md, o.st, f.(pc := next), cbe)
      else Out(NOMATCH, o.st)
  }

  /** The branches of any other bracket: the last one is a tail call, unless the
      group could match an empty string. */
  function BraAlts(md: Md, st: State, f: Frame, cbe: bool): (o: Out)
    requires Wf(md, st, f)
    ensures Later(md, st, o)
    decreases md.limit - st.count, 1, |md.code| - f.pc, 0
  {
    var next := f.pc + Get(md.code, f.pc + 1);
    var in_ := f.(pc := f.pc + OpenLen(At(md.code, f.pc)));
    if At(md.code, next) != OP_ALT || next == f.pc then
      if cbe then Deeper(md, st, in_, cbe) else Call(md, st, in_, false)
    else
      var o := Deeper(md, st, in_, cbe);
      if o.rc != NOMATCH then o else BraAlts(md, o.st, f.(pc := next), cbe)
  }

  /** Set the two offsets of group n at its ket, if the vector has room. */
  function KetState(md: Md, st: State, n: nat, eptr: nat): (st': State)
    requires md.offsetEnd % 3 == 0 && |st.vec| == md.offsetEnd
    ensures |st'.vec| == md.offsetEnd && st'.count == st.count
  {
    if 0 < 2 * n < md.OffsetMax()
    then st.(vec := st.vec[2 * n := st.vec[md.offsetEnd - n]][2 * n + 1 := eptr])
    else st.(overflow := true)
  }

  function KetTop(md: Md, top: nat, n: nat): nat {
    if 0 < 2 * n < md.OffsetMax() && top <= 2 * n then 2 * n + 2 else top
  }

  /** A closing ket: pop the chain for an S bracket, record a capture, then go on
      or go round again. */
  function RunKet(md: Md, st: State, f: Frame): (o: Out)
    requires Wf(md, st, f) && f.pc < |md.code|
    ensures Later(md, st, o)
    decreases md.limit - st.count, 1, |md.code| - f.pc, 1
  {
    var prev: int := f.pc - Get(md.code, f.pc + 1);
    var bra := At(md.code, prev);
    var s := bra == OP_SBRA || bra == OP_SCBRA;
    var cap := bra == OP_CBRA || bra == OP_SCBRA;
    if prev < 0 || !(s || cap || bra == OP_BRA) || (s && f.chain == []) then
      Out(UNKNOWN_OPCODE, st)
    else
      var n := Get(md.code, prev + 3);
      var st1 := if cap then KetState(md, st, n, f.eptr) else st;
      var f1 := f.(chain := if s then f.chain[1..] else f.chain,
                   top := if cap then KetTop(md, f.top, n) else f.top);
      AfterClose(md, st1, f1, prev, s, s && f.eptr == f.chain[0])
  }

  /** A non-repeating ket, or an empty iteration, goes on; a repeating ket tries
      the rest of the pattern and another iteration, in the order it asks for. */
  function AfterClose(md: Md, st: State, f: Frame, prev: nat, s: bool, empty: bool): (o: Out)
    requires Wf(md, st, f) && f.pc < |md.code|
    ensures Later(md, st, o)
    decreases md.limit - st.count, 1, |md.code| - f.pc, 0
  {
    var after, again := f.(pc := f.pc + 3), f.(pc := prev);
    if md.code[f.pc] == OP_KET || empty then Run(md, st, after)
    else if md.code[f.pc] == OP_KETRMIN then
      var o := Deeper(md, st, after, false);
      if o.rc != NOMATCH then o
      else if s then Deeper(md, o.st, again, true) else Call(md, o.st, again, false)
    else
      var o := Deeper(md, st, again, s);
      if o.rc != NOMATCH then o else Call(md, o.st, after, false)
  }

  // ---------- one opcode ----------

  lemma RunAtBra(md: Md, st: State, f: Frame)
    requires Wf(md, st, f) && At(md.code, f.pc) in {OP_BRA, OP_CBRA, OP_SBRA, OP_SCBRA}
    ensures f.pc < |md.code| && Run(md, st, f) == RunBra(md, st, f)
  {
    hide Call, Deeper, RunBra, RunRepeat, RunKet, DecodeRepeat, SkipAlts, ZeroOk;
  }

  lemma RunAtZero(md: Md, st: State, f: Frame)
    requires Wf(md, st, f) && At(md.code, f.pc) in {OP_BRAZERO, OP_BRAMINZERO, OP_SKIPZERO}
    ensures f.pc < |md.code|
    ensures var inside, after := f.(pc := f.pc + 1), f.(pc := SkipAlts(md.code, f.pc + 1) + 3);
      var op := At(md.code, f.pc);
      var o := Deeper(md, st, if op == OP_BRAZERO then inside else after, false);
      Run(md, st, f) ==
        if op == OP_SKIPZERO then Run(md, st, after)
        else if o.rc != NOMATCH then o
        else Run(md, o.st, if op == OP_BRAZERO then after else inside)
  {
    hide Call, Deeper, RunBra, RunRepeat, RunKet, DecodeRepeat, SkipAlts, ZeroOk;
  }
}
