/** The states of internal_dfa_exec, and the moves that one state allows. */
module StateSet {
  import opened Bytes
  import opened Code
  import opened Layout
  import opened Semantics
  import opened Repeats

  /** A stateblock: an offset in the code, and how often a repeat there has matched. */
  datatype State = State(offset: nat, count: nat)

  /** States to look at for the same character, and states for the next one. */
  datatype Moves = Moves(active: seq<State>, next: seq<State>)

  function To(pc: nat): State { State(pc, 0) }

  function Stay(pcs: seq<State>): Moves { Moves(pcs, []) }

  /** The item that a single-character opcode tests, and its repeat. */
  function FamilyOf(code: seq<Byte>, nocase: bool, pc: nat): Single {
    var i := At(code, pc) as int - OP_STAR as int;
    var arg := At(code, pc + if i % 13 in {6, 7, 8, 12} then 3 else 1);
    if i / 13 == 0 then Lit(arg, nocase) else if i / 13 == 1 then NotLit(arg, nocase) else Type(arg)
  }

  /** The repeats that have an opcode; ok says whether the item accepts the character.
      A possessive one (9 to 12) takes back the way past it when the item does. */
  function RepeatMoves(code: seq<Byte>, s: State, off: int, ok: bool): Moves {
    var pc, more := s.offset, State(s.offset, s.count + 1);
    var counted := if s.count + 1 >= Get(code, pc + 1) then To(pc + 4) else more;
    if off == 0 || off == 1 then Moves([To(pc + 2)], if ok then [To(pc)] else [])
    else if off == 2 || off == 3 then Moves(if s.count > 0 then [To(pc + 2)] else [], if ok then [more] else [])
    else if off == 4 || off == 5 then Moves([To(pc + 2)], if ok then [To(pc + 2)] else [])
    else if off == 6 || off == 7 then Moves([To(pc + 4)], if ok then [counted] else [])
    else if off == 8 then Moves([], if ok then [counted] else [])
    else if off == 9 then if ok then Moves([], [To(pc)]) else Stay([To(pc + 2)])
    else if off == 10 then if ok then Moves([], [more]) else Stay(if s.count > 0 then [To(pc + 2)] else [])
    else if off == 11 then if ok then Moves([], [To(pc + 2)]) else Stay([To(pc + 2)])
    else if off == 12 then if ok then Moves([], [counted]) else Stay([To(pc + 4)])
    else Stay([])
  }

  function ClassMoves(code: seq<Byte>, s: State, ok: bool): Moves {
    var pc, more, e := s.offset, State(s.offset, s.count + 1), s.offset + 33;
    var op := At(code, e);
    if op == OP_CRSTAR || op == OP_CRSTAR + 1 then Moves([To(e + 1)], if ok then [To(pc)] else [])
    else if op == OP_CRSTAR + 2 || op == OP_CRSTAR + 3 then
      Moves(if s.count > 0 then [To(e + 1)] else [], if ok then [more] else [])
    else if op == OP_CRSTAR + 4 || op == OP_CRSTAR + 5 then Moves([To(e + 1)], if ok then [To(e + 1)] else [])
    else if op == OP_CRRANGE || op == OP_CRMINRANGE then
      var max := Get(code, e + 3);
      Moves(if s.count >= Get(code, e + 1) then [To(e + 5)] else [],
            if !ok then [] else if s.count + 1 >= max && max != 0 then [To(e + 5)] else [more])
    else Moves([], if ok then [To(e)] else [])
  }

  /** $ in this engine: unlike match() it does not look at PCRE_DOLLAR_ENDONLY. */
  predicate ZeroMoves(c: Ctx, op: Byte, pos: nat) { ZeroOk(c.(endonly := false), op, pos) }

  /** The first items of the branches that open at pc. */
  function BranchStarts(code: seq<Byte>, pc: nat): (out: seq<State>)
    decreases |code| - pc
  {
    var next, len := pc + Get(code, pc + 1), if At(code, pc) == OP_CBRA || At(code, pc) == OP_SCBRA then 5 else 3;
    [To(pc + len)] +
    if pc >= |code| || next == pc || At(code, next) != OP_ALT then [] else BranchStarts(code, next)
  }

  /** What the state s may do at pos. ket is the end of the pattern. */
  function MovesOf(code: seq<Byte>, c: Ctx, ket: nat, s: State, pos: nat): Moves {
    var pc, op := s.offset, At(code, s.offset);
    if OP_KET <= op <= OP_KETRMIN then
      if pc == ket then Stay([])
      else Stay([To(pc + 3)] + if op == OP_KET || pc < Get(code, pc + 1) then [] else [To(pc - Get(code, pc + 1))])
    else if op == OP_ALT then Stay([To(SkipAlts(code, pc))])
    else if op in {OP_BRA, OP_SBRA, OP_CBRA, OP_SCBRA} then Stay(BranchStarts(code, pc))
    else if op == OP_BRAZERO || op == OP_BRAMINZERO then Stay([To(pc + 1), To(SkipAlts(code, pc + 1) + 3)])
    else if op == OP_SKIPZERO then Stay([To(SkipAlts(code, pc + 1) + 3)])
    else if op in {OP_SOD, OP_EODN, OP_EOD, OP_CIRC, OP_DOLL} then Stay(if ZeroMoves(c, op, pos) then [To(pc + 1)] else [])
    else if OP_STAR <= op < OP_CRSTAR then
      RepeatMoves(code, s, (op as int - OP_STAR as int) % 13, AcceptsAt(c, FamilyOf(code, c.nocase, pc), pos))
    else if (op == OP_CLASS || op == OP_NCLASS) && pc + 33 <= |code| then
      ClassMoves(code, s, AcceptsAt(c, Class(op == OP_NCLASS, code[pc + 1..pc + 33]), pos))
    else if op == OP_CHAR || op == OP_CHARNC then
      Moves([], if AcceptsAt(c, Lit(At(code, pc + 1), op == OP_CHARNC), pos) then [To(pc + 2)] else [])
    else if op == OP_NOT then
      Moves([], if AcceptsAt(c, NotLit(At(code, pc + 1), c.nocase), pos) then [To(pc + 2)] else [])
    else if OP_NOT_DIGIT <= op <= OP_ALLANY then Moves([], if AcceptsAt(c, Type(op), pos) then [To(pc + 1)] else [])
    else Stay([])
  }

  lemma MovesAtKet(code: seq<Byte>, c: Ctx, ket: nat, s: State, pos: nat)
    requires OP_KET <= At(code, s.offset) <= OP_KETRMIN && s.offset != ket
    ensures var pc, back := s.offset, Get(code, s.offset + 1);
      MovesOf(code, c, ket, s, pos) == Stay([To(pc + 3)] + if At(code, pc) == OP_KET || pc < back then [] else [To(pc - back)])
  {
    hide SkipAlts, BranchStarts, FamilyOf, RepeatMoves, ClassMoves, AcceptsAt, ZeroMoves;
  }

  lemma MovesAtZero(code: seq<Byte>, c: Ctx, ket: nat, s: State, pos: nat)
    requires At(code, s.offset) in {OP_BRAZERO, OP_BRAMINZERO, OP_SKIPZERO}
    ensures var pc := s.offset;
      MovesOf(code, c, ket, s, pos) ==
        Stay((if At(code, pc) == OP_SKIPZERO then [] else [To(pc + 1)]) + [To(SkipAlts(code, pc + 1) + 3)])
  {
    hide SkipAlts, BranchStarts, FamilyOf, RepeatMoves, ClassMoves, AcceptsAt, ZeroMoves;
  }

  lemma MovesAtFamily(code: seq<Byte>, c: Ctx, ket: nat, s: State, pos: nat)
    requires OP_STAR <= At(code, s.offset) < OP_CRSTAR
    ensures MovesOf(code, c, ket, s, pos) ==
      RepeatMoves(code, s, (At(code, s.offset) as int - OP_STAR as int) % 13, AcceptsAt(c, FamilyOf(code, c.nocase, s.offset), pos))
  {
    hide SkipAlts, BranchStarts, FamilyOf, RepeatMoves, ClassMoves, AcceptsAt, ZeroMoves;
  }

  /** The opcodes for which MovesOf speaks; internal_dfa_exec gives up on the others
      that can stand in a pattern. */
  predicate Supported(op: Byte) {
    OP_KET <= op <= OP_KETRMIN || op in {OP_ALT, OP_BRA, OP_SBRA, OP_CBRA, OP_SCBRA, OP_BRAZERO, OP_BRAMINZERO, OP_SKIPZERO} ||
    op in {OP_SOD, OP_EODN, OP_EOD, OP_CIRC, OP_DOLL, OP_CLASS, OP_NCLASS, OP_CHAR, OP_CHARNC, OP_NOT} ||
    OP_STAR <= op < OP_CRSTAR || OP_NOT_DIGIT <= op <= OP_ALLANY
  }

  // ---------- paths ----------

  datatype Conf = Conf(s: State, pos: nat)

  predicate Move(code: seq<Byte>, c: Ctx, ket: nat, x: Conf, y: Conf) {
    var m := MovesOf(code, c, ket, x.s, x.pos);
    (y.pos == x.pos && y.s in m.active) || (y.pos == x.pos + 1 && y.s in m.next)
  }

  predicate IsPath(code: seq<Byte>, c: Ctx, ket: nat, path: seq<Conf>) {
    forall i :: 0 <= i < |path| - 1 ==> Move(code, c, ket, path[i], path[i + 1])
  }

  ghost predicate Leads(code: seq<Byte>, c: Ctx, ket: nat, x: Conf, y: Conf) {
    exists path :: |path| > 0 && IsPath(code, c, ket, path) && path[0] == x && path[|path| - 1] == y
  }

  lemma LeadsHere(code: seq<Byte>, c: Ctx, ket: nat, x: Conf)
    ensures Leads(code, c, ket, x, x)
  {
    assert IsPath(code, c, ket, [x]) && [x][0] == x && [x][|[x]| - 1] == x;
  }

  lemma LeadsStep(code: seq<Byte>, c: Ctx, ket: nat, x: Conf, y: Conf, z: Conf)
    requires Move(code, c, ket, x, y) && Leads(code, c, ket, y, z)
    ensures Leads(code, c, ket, x, z)
  {
    hide Move;
    var path :| |path| > 0 && IsPath(code, c, ket, path) && path[0] == y && path[|path| - 1] == z;
    var longer := [x] + path;
    forall i | 0 <= i < |longer| - 1 ensures Move(code, c, ket, longer[i], longer[i + 1]) {
      if i > 0 { assert longer[i] == path[i - 1] && longer[i + 1] == path[i]; }
    }
    assert IsPath(code, c, ket, longer) && longer[0] == x && longer[|longer| - 1] == z;
  }

  lemma LeadsTrans(code: seq<Byte>, c: Ctx, ket: nat, x: Conf, y: Conf, z: Conf)
    requires Leads(code, c, ket, x, y) && Leads(code, c, ket, y, z)
    ensures Leads(code, c, ket, x, z)
  {
    hide Move;
    var a :| |a| > 0 && IsPath(code, c, ket, a) && a[0] == x && a[|a| - 1] == y;
    var b :| |b| > 0 && IsPath(code, c, ket, b) && b[0] == y && b[|b| - 1] == z;
    var longer := a + b[1..];
    forall i | 0 <= i < |longer| - 1 ensures Move(code, c, ket, longer[i], longer[i + 1]) {
      if i < |a| - 1 {
        assert longer[i] == a[i] && longer[i + 1] == a[i + 1];
      } else {
        assert longer[i + 1] == b[i + 2 - |a|] && longer[i] == b[i + 1 - |a|];
      }
    }
    assert IsPath(code, c, ket, longer) && longer[0] == x && longer[|longer| - 1] == z;
  }
}
