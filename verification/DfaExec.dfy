/** internal_dfa_exec: two lists of states that change places at every character. */
module DfaExec {
  import opened Bytes
  import opened Code
  import opened Layout
  import opened Semantics
  import opened Repeats
  import opened StateSet
  import opened StateRun
  import opened StateRoom
  import StateMatches
  import StatePaths
  import opened StateLanguage
  import Leftmost
  import Pattern
  import Lowering
  import Theorems

  const NO_MATCH: int := -1
  const DFA_UITEM: int := -16
  const DFA_WSSIZE: int := -19

  /** What is returned after n matches, with room for slots numbers: 0 as soon as the
      pairs fill the vector, unless there is but one. */
  function MatchCount(n: nat, slots: nat): int {
    if n == 0 then NO_MATCH else if slots < 2 then 0 else if n == 1 then 1 else if n * 2 < slots then n else 0
  }

  /** How many of n matches the vector shows. */
  function Shown(n: nat, slots: nat): nat { if n * 2 <= slots then n else slots / 2 }

  // ---------- counts ----------

  /** No state at the end of the pattern carries a count. */
  predicate Plain(ket: nat, list: seq<State>) { forall s :: s in list && s.offset == ket ==> s == To(ket) }

  lemma {:induction false} StartsPlain(code: seq<Byte>, ket: nat, pc: nat)
    ensures Plain(ket, BranchStarts(code, pc))
    decreases |code| - pc
  {
    var next := pc + Get(code, pc + 1);
    if !(pc >= |code| || next == pc || At(code, next) != OP_ALT) { StartsPlain(code, ket, next); }
  }

  lemma MovesPlain(code: seq<Byte>, c: Ctx, ket: nat, s: State, pos: nat)
    requires At(code, ket) == OP_KET
    ensures var m := MovesOf(code, c, ket, s, pos); Plain(ket, m.active) && Plain(ket, m.next)
  {
    StartsPlain(code, ket, s.offset);
    hide SkipAlts, BranchStarts, Accepts, ZeroOk, FamilyOf;
  }

  /** Acting on s takes the sweep one state further. */
  lemma SweepStep(code: seq<Byte>, c: Ctx, ket: nat, cap: nat, pos: nat, a: seq<State>, i: nat, n: seq<State>)
    requires i < |a| <= cap && |n| <= cap && (n != [] ==> pos < |c.s|) && a[i] !in a[..i] && Supported(At(code, a[i].offset))
    ensures var m := MovesOf(code, c, ket, a[i], pos);
      (m.next != [] ==> pos < |c.s|) && |m.active| <= Asked(code, a[i], m) &&
      Sweep(code, c, ket, cap, pos, a, i, n) ==
        if |a| + Asked(code, a[i], m) > cap || |n| + |m.next| > cap then NoRoom
        else Sweep(code, c, ket, cap, pos, a + m.active, i + 1, n + m.next)
  {
    hide MovesOf, Asked, Supported;
    MovesFit(code, c, ket, a[i], pos);
  }

  /** Of all the branch starts, those of pc on are still to come, if there are more. */
  predicate ToCome(code: seq<Byte>, all: seq<State>, added: seq<State>, more: bool, pc: nat) {
    all == added + if more then BranchStarts(code, pc) else []
  }

  function Opening(code: seq<Byte>, pc: nat): State {
    To(pc + if At(code, pc) == OP_CBRA || At(code, pc) == OP_SCBRA then 5 else 3)
  }

  predicate Another(code: seq<Byte>, pc: nat) {
    var next := pc + Get(code, pc + 1);
    pc < |code| && next != pc && At(code, next) == OP_ALT
  }

  lemma AllToCome(code: seq<Byte>, pc: nat)
    ensures ToCome(code, BranchStarts(code, pc), [], true, pc)
  {
    hide BranchStarts;
  }

  lemma NoneToCome(code: seq<Byte>, all: seq<State>, added: seq<State>, pc: nat)
    requires ToCome(code, all, added, false, pc)
    ensures all == added
  {
  }

  lemma OneComes(code: seq<Byte>, all: seq<State>, added: seq<State>, pc: nat)
    requires ToCome(code, all, added, true, pc)
    ensures ToCome(code, all, added + [Opening(code, pc)], Another(code, pc), pc + Get(code, pc + 1)) && |all| > |added|
  {
    var rest := if Another(code, pc) then BranchStarts(code, pc + Get(code, pc + 1)) else [];
    assert BranchStarts(code, pc) == [Opening(code, pc)] + rest;
    hide BranchStarts;
    assert added + ([Opening(code, pc)] + rest) == (added + [Opening(code, pc)]) + rest;
  }

  /** The offset of a repeat in its family, the state behind it, whether that is tried,
      and where a character leads. */
  function Off(code: seq<Byte>, s: State): int { (At(code, s.offset) as int - OP_STAR as int) % 13 }

  function Behind(code: seq<Byte>, s: State): State { To(s.offset + if Off(code, s) in {6, 7, 8, 12} then 4 else 2) }

  predicate Passed(code: seq<Byte>, s: State) { Off(code, s) != 8 && (Off(code, s) in {2, 3, 10} ==> s.count > 0) }

  function Ahead(code: seq<Byte>, s: State): State {
    var off := Off(code, s);
    if off in {4, 5, 11} || (off in {6, 7, 8, 12} && s.count + 1 >= Get(code, s.offset + 1)) then Behind(code, s)
    else if off in {0, 1, 9} then To(s.offset) else State(s.offset, s.count + 1)
  }

  lemma RepeatIs(code: seq<Byte>, c: Ctx, ket: nat, s: State, pos: nat)
    requires OP_STAR <= At(code, s.offset) < OP_CRSTAR
    ensures var takes := AcceptsAt(c, FamilyOf(code, c.nocase, s.offset), pos);
      var m := MovesOf(code, c, ket, s, pos);
      m.active == (if Passed(code, s) && !(takes && Off(code, s) >= 9) then [Behind(code, s)] else []) &&
      m.next == (if takes then [Ahead(code, s)] else []) && Asked(code, s, m) == if Passed(code, s) then 1 else 0
  {
    hide AcceptsAt, FamilyOf, SkipAlts, BranchStarts, ClassMoves, Get;
  }

  lemma ClassIs(code: seq<Byte>, c: Ctx, ket: nat, s: State, pos: nat)
    requires At(code, s.offset) in {OP_CLASS, OP_NCLASS}
    ensures MovesOf(code, c, ket, s, pos) ==
      if s.offset + 33 > |code| then Stay([])
      else ClassMoves(code, s, pos < |c.s| && BitSet(code[s.offset + 1..s.offset + 33], c.s[pos]))
  {
    hide BitSet, SkipAlts, BranchStarts, RepeatMoves, FamilyOf, ClassMoves;
  }

  lemma EndStays(code: seq<Byte>, c: Ctx, ket: nat, pos: nat)
    requires At(code, ket) == OP_KET
    ensures Supported(At(code, ket)) && MovesOf(code, c, ket, To(ket), pos) == Stay([]) && Asked(code, To(ket), Stay([])) == 0
  {
    hide SkipAlts, BranchStarts, Accepts, ZeroOk, FamilyOf;
  }

  /** One more state has been looked at. */
  lemma HereGrows(c: Ctx, ket: nat, from: nat, pos: nat, a: seq<State>, m: seq<State>, i: nat)
    requires i < |a|
    ensures EndsHere(c, ket, from, pos, (a + m)[..i + 1]) ==
      if a[i] == To(ket) && a[i] !in a[..i] && Counts(c, from, pos) then [pos] else EndsHere(c, ket, from, pos, a[..i])
  {
    assert (a + m)[..i + 1] == a[..i] + [a[i]];
  }

  lemma PlainGrows(ket: nat, a: seq<State>, m: seq<State>)
    requires Plain(ket, a) && Plain(ket, m)
    ensures Plain(ket, a + m)
  {
  }

  function ErrorOf(l: Lists): int { if l.NoRoom? then DFA_WSSIZE else if l.BadItem? then DFA_UITEM else 0 }

  function ResultOf(f: Found, slots: nat): int {
    if f.Full? then DFA_WSSIZE else if f.Unsupported? then DFA_UITEM else MatchCount(|f.ends|, slots)
  }

  function Prepend(done: seq<nat>, f: Found): Found { if f.Found? then Found(done + f.ends) else f }

  lemma PrependTwice(done: seq<nat>, here: seq<nat>, f: Found)
    ensures Prepend(done + here, f) == Prepend(done, Prepend(here, f))
  {
    if f.Found? { assert done + here + f.ends == done + (here + f.ends); }
  }

  lemma NothingYet(c: Ctx, ket: nat, from: nat, pos: nat, a: seq<State>)
    ensures EndsHere(c, ket, from, pos, a[..0]) == [] && Plain(ket, [])
  {
  }

  lemma SweepEnd(code: seq<Byte>, c: Ctx, ket: nat, cap: nat, pos: nat, a: seq<State>, n: seq<State>)
    requires |a| <= cap && |n| <= cap && (n != [] ==> pos < |c.s|)
    ensures Sweep(code, c, ket, cap, pos, a, |a|, n) == Lists(a, n)
  {
  }

  lemma DupStep(code: seq<Byte>, c: Ctx, ket: nat, cap: nat, pos: nat, a: seq<State>, i: nat, n: seq<State>)
    requires i < |a| <= cap && |n| <= cap && (n != [] ==> pos < |c.s|) && a[i] in a[..i]
    ensures Sweep(code, c, ket, cap, pos, a, i, n) == Sweep(code, c, ket, cap, pos, a, i + 1, n)
  {
    hide MovesOf, Asked, Supported;
  }

  lemma BadStep(code: seq<Byte>, c: Ctx, ket: nat, cap: nat, pos: nat, a: seq<State>, i: nat, n: seq<State>)
    requires i < |a| <= cap && |n| <= cap && (n != [] ==> pos < |c.s|) && a[i] !in a[..i] && !Supported(At(code, a[i].offset))
    ensures Sweep(code, c, ket, cap, pos, a, i, n) == BadItem
  {
    hide MovesOf, Asked, Supported;
  }

  lemma PlainAt(ket: nat, a: seq<State>, i: nat)
    requires Plain(ket, a) && i < |a| && a[i].offset == ket
    ensures a[i] == To(ket)
  {
  }

  lemma FirstHere(c: Ctx, ket: nat, from: nat, pos: nat, a: seq<State>)
    requires To(ket) !in a
    ensures EndsHere(c, ket, from, pos, a) == []
  {
  }

  lemma EndsUnfold(code: seq<Byte>, c: Ctx, ket: nat, cap: nat, from: nat, pos: nat, list: seq<State>, done: seq<nat>)
    requires pos <= |c.s| && |list| <= cap
    ensures var l := Sweep(code, c, ket, cap, pos, list, 0, []);
      var f := Prepend(done, EndsFrom(code, c, ket, cap, from, pos, list));
      if l.NoRoom? then f == Full
      else if l.BadItem? then f == Unsupported
      else
        var now := done + EndsHere(c, ket, from, pos, l.active);
        f == if l.next == [] then Found(now) else Prepend(now, EndsFrom(code, c, ket, cap, from, pos + 1, l.next))
  {
    hide Sweep;
    var l := Sweep(code, c, ket, cap, pos, list, 0, []);
    if l.Lists? && l.next != [] {
      PrependTwice(done, EndsHere(c, ket, from, pos, l.active), EndsFrom(code, c, ket, cap, from, pos + 1, l.next));
    }
  }

  lemma Append(a: seq<State>, b: seq<State>, s: State)
    ensures (a + b) + [s] == a + (b + [s])
  {
  }

  class StateScan {
    const code: seq<Byte>
    const c: Ctx
    const ket: nat
    var active: array<State>
    var spare: array<State>
    var activeCount: nat
    var newCount: nat
    const offsets: array<int>
    const slots: nat
    var matchCount: int

    ghost predicate Valid()
      reads this
    {
      active != spare && active.Length == spare.Length && activeCount <= active.Length && newCount <= spare.Length &&
      slots <= offsets.Length && slots % 2 == 0
    }

    ghost function Active(): seq<State>
      requires Valid()
      reads this, active
    {
      active[..activeCount]
    }

    ghost function Next(): seq<State>
      requires Valid()
      reads this, spare
    {
      spare[..newCount]
    }

    /** Set up for a pattern; half of the workspace for each list. The vector of offsets
        is used up to an even number of elements. */
    constructor (code: seq<Byte>, c: Ctx, offsets: array<int>, offsetCount: nat, room: nat)
      requires offsetCount <= offsets.Length
      ensures Valid() && this.code == code && this.c == c && ket == SkipAlts(code, 0) && this.offsets == offsets
      ensures slots == offsetCount - offsetCount % 2 && active.Length == room && Active() == [] && Next() == []
      ensures matchCount == NO_MATCH && fresh(active) && fresh(spare)
    {
      this.code, this.c, this.ket := code, c, SkipAlts(code, 0);
      this.offsets, slots, matchCount := offsets, offsetCount - offsetCount % 2, NO_MATCH;
      activeCount, newCount := 0, 0;
      active := new State[room](_ => To(0));
      spare := new State[room](_ => To(0));
    }

    // ---------- the lists ----------

    method AddActive(s: State) returns (ok: bool)
      requires Valid()
      modifies `activeCount, active
      ensures Valid() && ok == (old(activeCount) < active.Length)
      ensures Active() == if ok then old(Active()) + [s] else old(Active())
    {
      ok := activeCount < active.Length;
      if ok {
        active[activeCount] := s;
        activeCount := activeCount + 1;
      }
    }

    method AddNew(s: State) returns (ok: bool)
      requires Valid()
      modifies `newCount, spare
      ensures Valid() && ok == (old(newCount) < spare.Length)
      ensures Next() == if ok then old(Next()) + [s] else old(Next())
    {
      ok := newCount < spare.Length;
      if ok {
        spare[newCount] := s;
        newCount := newCount + 1;
      }
    }

    /** Take back the state that was added last. */
    method DropActive()
      requires Valid() && activeCount > 0
      modifies `activeCount
      ensures Valid() && Active() == old(Active())[..old(activeCount) - 1]
    {
      activeCount := activeCount - 1;
    }

    method IsDuplicate(i: nat) returns (dup: bool)
      requires Valid() && i < activeCount
      ensures dup == (Active()[i] in Active()[..i])
    {
      var j: nat := 0;
      while j < i
        invariant j <= i
        invariant active[i] !in active[..j]
      {
        if active[j].offset == active[i].offset && active[j].count == active[i].count {
          assert active[j] == active[i] && active[..i][j] == active[j];
          assert Active()[..i] == active[..i];
          return true;
        }
        j := j + 1;
      }
      assert Active()[..i] == active[..i];
      return false;
    }

    // ---------- brackets ----------

    method Onward(pc: nat) returns (more: bool, next: nat)
      ensures more == Another(code, pc) && next == pc + Get(code, pc + 1)
      ensures more ==> pc < next && pc < |code|
    {
      next := pc + Get(code, pc + 1);
      more := pc < |code| && next != pc && At(code, next) == OP_ALT;
    }

    /** The first items of all branches that open at pc0. */
    method AddBranches(pc0: nat) returns (ok: bool)
      requires Valid()
      modifies `activeCount, active
      ensures Valid() && ok == (old(activeCount) + |BranchStarts(code, pc0)| <= active.Length)
      ensures ok ==> Active() == old(Active()) + BranchStarts(code, pc0)
    {
      hide BranchStarts, ToCome, Another, Opening;
      var pc: nat, more := pc0, true;
      AllToCome(code, pc);
      ghost var all, added: seq<State> := BranchStarts(code, pc), [];
      while more
        invariant Valid() && Active() == old(Active()) + added && activeCount == old(activeCount) + |added|
        invariant ToCome(code, all, added, more, pc)
        decreases if more then 1 + (if pc < |code| then |code| - pc else 0) else 0
      {
        OneComes(code, all, added, pc);
        var room := AddActive(Opening(code, pc));
        if !room { return false; }
        Append(old(Active()), added, Opening(code, pc));
        added := added + [Opening(code, pc)];
        more, pc := Onward(pc);
      }
      NoneToCome(code, all, added, pc);
      return true;
    }

    /** The same from the start, on the list for the next character. */
    method AddFirstStates() returns (ok: bool)
      requires Valid()
      modifies `newCount, spare
      ensures Valid() && ok == (old(newCount) + |BranchStarts(code, 0)| <= spare.Length)
      ensures ok ==> Next() == old(Next()) + BranchStarts(code, 0)
    {
      hide BranchStarts, ToCome, Another, Opening;
      var pc: nat, more := 0, true;
      AllToCome(code, pc);
      ghost var all, added: seq<State> := BranchStarts(code, pc), [];
      while more
        invariant Valid() && Next() == old(Next()) + added && newCount == old(newCount) + |added|
        invariant ToCome(code, all, added, more, pc)
        decreases if more then 1 + (if pc < |code| then |code| - pc else 0) else 0
      {
        OneComes(code, all, added, pc);
        var room := AddNew(Opening(code, pc));
        if !room { return false; }
        Append(old(Next()), added, Opening(code, pc));
        added := added + [Opening(code, pc)];
        more, pc := Onward(pc);
      }
      NoneToCome(code, all, added, pc);
      return true;
    }

    /** The opcodes that go on to other states for the same character. */
    method Brackets(s: State, pos: nat) returns (ok: bool)
      requires Valid() && s.offset != ket
      requires var op := At(code, s.offset);
        OP_KET <= op <= OP_KETRMIN || op in {OP_ALT, OP_BRA, OP_SBRA, OP_CBRA, OP_SCBRA, OP_BRAZERO, OP_BRAMINZERO, OP_SKIPZERO}
      modifies `activeCount, active
      ensures Valid()
      ensures var m := MovesOf(code, c, ket, s, pos);
        m.next == [] && ok == (old(activeCount) + |m.active| <= active.Length) && (ok ==> Active() == old(Active()) + m.active)
    {
      hide SkipAlts, BranchStarts;
      var pc, op := s.offset, At(code, s.offset);
      if OP_KET <= op <= OP_KETRMIN {
        ok := AddActive(To(pc + 3));
        if ok && op != OP_KET && pc >= Get(code, pc + 1) { ok := AddActive(To(pc - Get(code, pc + 1))); }
      } else if op == OP_ALT {
        ok := AddActive(To(SkipAlts(code, pc)));
      } else if op == OP_SKIPZERO {
        ok := AddActive(To(SkipAlts(code, pc + 1) + 3));
      } else if op == OP_BRAZERO || op == OP_BRAMINZERO {
        ok := AddActive(To(pc + 1));
        if ok { ok := AddActive(To(SkipAlts(code, pc + 1) + 3)); }
      } else {
        ok := AddBranches(pc);
      }
    }

    // ---------- items ----------

    method Zero(s: State, pos: nat) returns (ok: bool)
      requires Valid() && At(code, s.offset) in {OP_SOD, OP_EODN, OP_EOD, OP_CIRC, OP_DOLL} && pos <= |c.s|
      modifies `activeCount, active
      ensures Valid()
      ensures var m := MovesOf(code, c, ket, s, pos);
        m.next == [] && ok == (old(activeCount) + |m.active| <= active.Length) && (ok ==> Active() == old(Active()) + m.active)
    {
      hide SkipAlts, BranchStarts;
      var op, end := At(code, s.offset), |c.s|;
      var last := pos == end || (NewlineAt(c, pos) && pos == end - 1);
      var holds :=
        if op == OP_CIRC then (pos == 0 && !c.notbol) || (c.multiline && pos != end && pos > 0 && NewlineAt(c, pos - 1))
        else if op == OP_EOD then pos >= end
        else if op == OP_SOD then pos == 0
        else if op == OP_EODN then last
        else if !c.noteol then pos == end || (NewlineAt(c, pos) && (c.multiline || pos == end - 1))
        else c.multiline && NewlineAt(c, pos);
      ok := true;
      if holds { ok := AddActive(To(s.offset + 1)); }
    }

    /** Items that take one character. */
    method OneItem(s: State, pos: nat) returns (ok: bool)
      requires Valid() && pos <= |c.s|
      requires var op := At(code, s.offset); op in {OP_CHAR, OP_CHARNC, OP_NOT} || OP_NOT_DIGIT <= op <= OP_ALLANY
      modifies `newCount, spare
      ensures Valid()
      ensures var m := MovesOf(code, c, ket, s, pos);
        m.active == [] && ok == (old(newCount) + |m.next| <= spare.Length) && (ok ==> Next() == old(Next()) + m.next)
    {
      hide SkipAlts, BranchStarts;
      var op, d := At(code, s.offset), At(code, s.offset + 1);
      ok := true;
      if pos < |c.s| {
        var b := c.s[pos];
        if op == OP_CHAR {
          if b == d { ok := AddNew(To(s.offset + 2)); }
        } else if op == OP_CHARNC {
          if Lcc(b) == Lcc(d) { ok := AddNew(To(s.offset + 2)); }
        } else if op == OP_NOT {
          if c.nocase {
            if b != d && b != Fcc(d) { ok := AddNew(To(s.offset + 2)); }
          } else if b != d {
            ok := AddNew(To(s.offset + 2));
          }
        } else if TypeOk(op, b) {
          ok := AddNew(To(s.offset + 1));
        }
      }
    }

    /** Whether the item of a single-character repeat takes the character. */
    method Takes(pc: nat, pos: nat) returns (ok: bool)
      requires OP_STAR <= At(code, pc) < OP_CRSTAR
      ensures ok == AcceptsAt(c, FamilyOf(code, c.nocase, pc), pos)
    {
      var op := At(code, pc);
      var off := (op as int - OP_STAR as int) % 13;
      var d := At(code, pc + if off in {6, 7, 8, 12} then 3 else 1);
      if pos >= |c.s| { return false; }
      if op >= OP_TYPESTAR { return TypeOk(d, c.s[pos]); }
      var same := c.s[pos] == d || (c.nocase && c.s[pos] == Fcc(d));
      return same == (op < OP_NOTSTAR);
    }

    /** The repeats of a character, a negated one or a type. */
    method Repeated(s: State, pos: nat) returns (ok: bool)
      requires Valid() && OP_STAR <= At(code, s.offset) < OP_CRSTAR
      modifies `activeCount, `newCount, active, spare
      ensures Valid()
      ensures var m := MovesOf(code, c, ket, s, pos);
        ok == (old(activeCount) + Asked(code, s, m) <= active.Length && old(newCount) + |m.next| <= spare.Length) &&
        (ok ==> Active() == old(Active()) + m.active && Next() == old(Next()) + m.next)
    {
      hide MovesOf, Asked, AcceptsAt, FamilyOf, Ahead, Get;
      RepeatIs(code, c, ket, s, pos);
      var pc, off := s.offset, (At(code, s.offset) as int - OP_STAR as int) % 13;
      var next := if off in {6, 7, 8, 12} then To(pc + 4) else To(pc + 2);
      var takes := Takes(pc, pos);
      ghost var before := Active();
      ok := true;
      var passed := off != 8 && (off in {2, 3, 10} ==> s.count > 0);
      if passed { ok := AddActive(next); }
      if ok && takes {
        if off >= 9 && passed { DropActive(); assert Active() == before; }
        var target := Target(s, off, next);
        ok := AddNew(target);
      }
    }

    /** Where a character leads that a repeat takes. */
    method Target(s: State, off: int, next: State) returns (t: State)
      requires off == Off(code, s) && next == Behind(code, s)
      ensures t == Ahead(code, s)
    {
      if off in {4, 5, 11} { return next; }
      if off in {0, 1, 9} { return To(s.offset); }
      if off in {6, 7, 8, 12} && s.count + 1 >= Get(code, s.offset + 1) { return next; }
      return State(s.offset, s.count + 1);
    }

    method ClassItem(s: State, pos: nat) returns (ok: bool)
      requires Valid() && At(code, s.offset) in {OP_CLASS, OP_NCLASS}
      modifies `activeCount, `newCount, active, spare
      ensures Valid()
      ensures var m := MovesOf(code, c, ket, s, pos);
        ok == (old(activeCount) + |m.active| <= active.Length && old(newCount) + |m.next| <= spare.Length) &&
        (ok ==> Active() == old(Active()) + m.active && Next() == old(Next()) + m.next)
    {
      hide BitSet, SkipAlts, BranchStarts, RepeatMoves, FamilyOf, MovesOf, Get, Supported;
      ClassIs(code, c, ket, s, pos);
      var pc, e := s.offset, s.offset + 33;
      ok := true;
      if e > |code| { return; }
      var op, isInClass := At(code, e), pos < |c.s| && BitSet(code[pc + 1..e], c.s[pos]);
      if op == OP_CRSTAR || op == OP_CRSTAR + 1 {
        ok := AddActive(To(e + 1));
        if ok && isInClass { ok := AddNew(To(pc)); }
      } else if op == OP_CRSTAR + 2 || op == OP_CRSTAR + 3 {
        if s.count > 0 { ok := AddActive(To(e + 1)); }
        if ok && isInClass { ok := AddNew(State(pc, s.count + 1)); }
      } else if op == OP_CRSTAR + 4 || op == OP_CRSTAR + 5 {
        ok := AddActive(To(e + 1));
        if ok && isInClass { ok := AddNew(To(e + 1)); }
      } else if op == OP_CRRANGE || op == OP_CRMINRANGE {
        if s.count >= Get(code, e + 1) { ok := AddActive(To(e + 5)); }
        if ok && isInClass {
          var max := Get(code, e + 3);
          if s.count + 1 >= max && max != 0 { ok := AddNew(To(e + 5)); } else { ok := AddNew(State(pc, s.count + 1)); }
        }
      } else if isInClass {
        ok := AddNew(To(e));
      }
    }

    /** One state that is not at the end of the pattern. */
    method Act(s: State, pos: nat) returns (rc: int)
      requires Valid() && pos <= |c.s| && s.offset != ket
      modifies `activeCount, `newCount, active, spare
      ensures Valid()
      ensures var m := MovesOf(code, c, ket, s, pos);
        var fits := old(activeCount) + Asked(code, s, m) <= active.Length && old(newCount) + |m.next| <= spare.Length;
        rc == (if !Supported(At(code, s.offset)) then DFA_UITEM else if fits then 0 else DFA_WSSIZE) &&
        (rc == 0 ==> Active() == old(Active()) + m.active && Next() == old(Next()) + m.next)
    {
      hide MovesOf, SkipAlts, BranchStarts;
      var op := At(code, s.offset);
      var ok;
      if OP_STAR <= op < OP_CRSTAR {
        ok := Repeated(s, pos);
      } else if op == OP_CLASS || op == OP_NCLASS {
        ok := ClassItem(s, pos);
      } else if op in {OP_CHAR, OP_CHARNC, OP_NOT} || OP_NOT_DIGIT <= op <= OP_ALLANY {
        ok := OneItem(s, pos);
      } else if op in {OP_SOD, OP_EODN, OP_EOD, OP_CIRC, OP_DOLL} {
        ok := Zero(s, pos);
      } else if Supported(op) {
        ok := Brackets(s, pos);
      } else {
        return DFA_UITEM;
      }
      rc := if ok then 0 else DFA_WSSIZE;
    }

    // ---------- matches ----------

    /** The vector shows the latest of the ends found, the longest match first; was is
        the vector as the caller left it. */
    ghost predicate Recorded(from: nat, ends: seq<nat>, was: seq<int>)
      reads `matchCount, offsets
    {
      matchCount == MatchCount(|ends|, slots) && |was| == offsets.Length && slots <= offsets.Length &&
      (forall i :: 0 <= i < Shown(|ends|, slots) ==> offsets[2 * i] == from && offsets[2 * i + 1] == ends[|ends| - 1 - i]) &&
      forall k :: 2 * Shown(|ends|, slots) <= k < |was| ==> offsets[k] == was[k]
    }

    /** A match from from to pos. */
    method Record(from: nat, pos: nat, ghost ends: seq<nat>, ghost was: seq<int>)
      requires Valid() && Recorded(from, ends, was)
      modifies `matchCount, offsets
      ensures Valid() && Recorded(from, ends + [pos], was)
    {
      if matchCount < 0 {
        matchCount := if slots >= 2 then 1 else 0;
      } else if matchCount > 0 {
        matchCount := matchCount + 1;
        if matchCount * 2 >= slots { matchCount := 0; }
      }
      var count := (if matchCount == 0 then slots else matchCount * 2) - 2;
      ghost var mid := offsets[..];
      forall k | 0 <= k < count { offsets[k + 2] := offsets[k]; }
      if slots >= 2 { offsets[0], offsets[1] := from, pos; }
      Shifted(from, pos, ends, was, mid, offsets[..]);
    }

    /** Moving every pair up by one makes room for the new one. */
    lemma Shifted(from: nat, pos: nat, ends: seq<nat>, was: seq<int>, mid: seq<int>, now: seq<int>)
      requires slots % 2 == 0 && slots <= |was| == |mid| == |now|
      requires forall i :: 0 <= i < Shown(|ends|, slots) ==> mid[2 * i] == from && mid[2 * i + 1] == ends[|ends| - 1 - i]
      requires forall k :: 2 * Shown(|ends|, slots) <= k < |was| ==> mid[k] == was[k]
      requires var count := 2 * Shown(|ends| + 1, slots) - 2;
        (forall k :: 2 <= k < count + 2 ==> now[k] == mid[k - 2]) && (slots >= 2 ==> now[0] == from && now[1] == pos) &&
        forall k :: count + 2 <= k < |now| ==> now[k] == mid[k]
      ensures var more := ends + [pos];
        (forall i :: 0 <= i < Shown(|more|, slots) ==> now[2 * i] == from && now[2 * i + 1] == more[|more| - 1 - i]) &&
        forall k :: 2 * Shown(|more|, slots) <= k < |was| ==> now[k] == was[k]
    {
      var more := ends + [pos];
      forall i | 0 <= i < Shown(|more|, slots) ensures now[2 * i] == from && now[2 * i + 1] == more[|more| - 1 - i] {
        if i > 0 {
          var j := i - 1;
          assert now[2 * i] == mid[2 * j] && now[2 * i + 1] == mid[2 * j + 1];
        }
      }
    }

    // ---------- the scan ----------

    /** The active state i, unless it is a duplicate: at the end of the pattern a match is
        recorded, and elsewhere its moves are added. */
    method OneState(i: nat, from: nat, ptr: nat, ghost done: seq<nat>, ghost before: seq<nat>, ghost was: seq<int>, ghost l: Lists)
      returns (rc: int, ghost now: seq<nat>)
      requires Valid() && i < activeCount && At(code, ket) == OP_KET && ptr <= |c.s|
      requires Plain(ket, Active()) && Plain(ket, Next()) && (Next() != [] ==> ptr < |c.s|)
      requires l == Sweep(code, c, ket, active.Length, ptr, Active(), i, Next())
      requires before == done + EndsHere(c, ket, from, ptr, Active()[..i]) && Recorded(from, before, was)
      modifies `activeCount, `newCount, `matchCount, active, spare, offsets
      ensures Valid() && (rc != 0 ==> rc == ErrorOf(l))
      ensures rc == 0 ==>
        i < activeCount && old(activeCount) <= activeCount && Plain(ket, Active()) && Plain(ket, Next()) && (Next() != [] ==> ptr < |c.s|) &&
        l == Sweep(code, c, ket, active.Length, ptr, Active(), i + 1, Next()) &&
        now == done + EndsHere(c, ket, from, ptr, Active()[..i + 1]) && Recorded(from, now, was)
    {
      hide MovesOf, Plain, EndsHere, Recorded, Asked, Supported, MatchCount, Sweep;
      ghost var a, n := Active(), Next();
      var dup := IsDuplicate(i);
      rc, now := 0, before;
      if dup {
        DupStep(code, c, ket, active.Length, ptr, a, i, n);
        HereGrows(c, ket, from, ptr, a, [], i);
        assert a + [] == a;
      } else if active[i].offset == ket {
        PlainAt(ket, a, i);
        EndStays(code, c, ket, ptr);
        SweepStep(code, c, ket, active.Length, ptr, a, i, n);
        HereGrows(c, ket, from, ptr, a, [], i);
        FirstHere(c, ket, from, ptr, a[..i]);
        assert a + [] == a && n + [] == n;
        if ptr > from || !c.notempty {
          now := before + [ptr];
          Record(from, ptr, before, was);
        }
      } else {
        ghost var m := MovesOf(code, c, ket, a[i], ptr);
        rc := Act(active[i], ptr);
        if rc == 0 {
          SweepStep(code, c, ket, active.Length, ptr, a, i, n);
          MovesPlain(code, c, ket, a[i], ptr);
          PlainGrows(ket, a, m.active);
          PlainGrows(ket, n, m.next);
          HereGrows(c, ket, from, ptr, a, m.active, i);
        } else if Supported(At(code, a[i].offset)) {
          SweepStep(code, c, ket, active.Length, ptr, a, i, n);
        } else {
          BadStep(code, c, ket, active.Length, ptr, a, i, n);
        }
      }
    }

    /** Acts on the list of active states for the character at ptr, to its end. */
    method Character(from: nat, ptr: nat, ghost done: seq<nat>, ghost was: seq<int>) returns (rc: int, ghost now: seq<nat>)
      requires Valid() && newCount == 0 && Plain(ket, Active()) && Recorded(from, done, was)
      requires At(code, ket) == OP_KET && ptr <= |c.s|
      modifies `activeCount, `newCount, `matchCount, active, spare, offsets
      ensures Valid()
      ensures var l := Sweep(code, c, ket, active.Length, ptr, old(Active()), 0, []);
        rc == ErrorOf(l) &&
        (rc == 0 ==> Next() == l.next && Plain(ket, l.next) && now == done + EndsHere(c, ket, from, ptr, l.active) && Recorded(from, now, was))
    {
      hide Sweep, MovesOf, Plain, EndsHere, Recorded, Asked, Supported;
      ghost var l := Sweep(code, c, ket, active.Length, ptr, Active(), 0, []);
      NothingYet(c, ket, from, ptr, Active());
      var i := 0;
      now := done;
      while i < activeCount
        invariant Valid() && i <= activeCount
        invariant Plain(ket, Active()) && Plain(ket, Next()) && (Next() != [] ==> ptr < |c.s|)
        invariant Sweep(code, c, ket, active.Length, ptr, Active(), i, Next()) == l
        invariant now == done + EndsHere(c, ket, from, ptr, Active()[..i]) && Recorded(from, now, was)
        decreases active.Length - activeCount, activeCount - i
      {
        rc, now := OneState(i, from, ptr, done, now, was, l);
        if rc != 0 { return; }
        i := i + 1;
      }
      SweepEnd(code, c, ket, active.Length, ptr, Active(), Next());
      assert Active()[..i] == Active();
      rc := 0;
    }

    /** Along the subject, from the list of first states. */
    method Scan(from: nat) returns (rc: int)
      requires Valid() && Plain(ket, Next()) && matchCount == NO_MATCH && At(code, ket) == OP_KET && from <= |c.s|
      modifies this, active, spare, offsets
      ensures Valid()
      ensures var f := EndsFrom(code, c, ket, old(active.Length), from, from, old(Next()));
        rc == ResultOf(f, slots) && (f.Found? ==> Recorded(from, f.ends, old(offsets[..])))
    {
      hide EndsFrom, Plain, Recorded, Sweep, MatchCount;
      ghost var cap, was, done: seq<nat> := active.Length, offsets[..], [];
      ghost var f := EndsFrom(code, c, ket, cap, from, from, Next());
      NoneDone(from, was);
      var ptr := from;
      while true
        invariant Valid() && active.Length == cap && {active, spare} == old({active, spare})
        invariant ptr <= |c.s| && Plain(ket, Next()) && Recorded(from, done, was)
        invariant f == Prepend(done, EndsFrom(code, c, ket, cap, from, ptr, Next()))
        decreases |c.s| - ptr
      {
        ghost var list := Next();
        active, spare, activeCount, newCount := spare, active, newCount, 0;
        ghost var now;
        rc, now := Character(from, ptr, done, was);
        EndsUnfold(code, c, ket, cap, from, ptr, list, done);
        if rc != 0 { return; }
        if newCount == 0 {
          ResultIs(from, now, was);
          return matchCount;
        }
        done, ptr := now, ptr + 1;
      }
    }

    /** internal_dfa_exec for the whole pattern, from the start from. */
    method Exec(from: nat) returns (rc: int)
      requires Valid() && newCount == 0 && matchCount == NO_MATCH && ket == SkipAlts(code, 0) && At(code, ket) == OP_KET
      requires from <= |c.s|
      modifies this, active, spare, offsets
      ensures Valid()
      ensures var f := Run(code, c, ket, old(active.Length), from);
        rc == ResultOf(f, slots) && (f.Found? ==> Recorded(from, f.ends, old(offsets[..])))
    {
      hide EndsFrom, BranchStarts, Plain, Recorded, SkipAlts;
      var room := AddFirstStates();
      if !room { return DFA_WSSIZE; }
      StartsPlain(code, ket, 0);
      assert Next() == BranchStarts(code, 0);
      rc := Scan(from);
    }

    lemma NoneDone(from: nat, was: seq<int>)
      requires Valid() && matchCount == NO_MATCH && was == offsets[..]
      ensures Recorded(from, [], was)
    {
    }

    lemma ResultIs(from: nat, ends: seq<nat>, was: seq<int>)
      requires Valid() && Recorded(from, ends, was)
      ensures matchCount == MatchCount(|ends|, slots)
    {
    }
  }

  lemma PatternEnd(c: Ctx, b: Pattern.Branch, more: Pattern.Branches)
    requires Theorems.Compilable(b, more, c.nocase)
    ensures var g := Lowering.Compile(b, more, c.nocase);
      SkipAlts(EncProgram(g), 0) == Span(g) && At(EncProgram(g), Span(g)) == OP_KET
  {
    var g := Lowering.Compile(b, more, c.nocase);
    StateMatches.LooseFitGroup(StateMatches.Loose(c), g);
    hide Theorems.Compilable, EncProgram, Lowering.Compile, Span, SkipAlts;
    StateMatches.CompiledProgram(StateMatches.Loose(c), b, more);
    StatePaths.ProgramEnd(EncProgram(g), StateMatches.Loose(c), g);
  }

  /** The whole engine on a compiled pattern: it complains about the workspace, or finds
      the end of every way of matching from this start, each once, and shows the longest
      ones, the longest first. */
  method MatchAll(c: Ctx, b: Pattern.Branch, more: Pattern.Branches, from: nat, offsets: array<int>, offsetCount: nat, room: nat,
                  ghost vec: seq<int>)
    returns (rc: int, ghost ends: seq<nat>)
    requires Theorems.Compilable(b, more, c.nocase) && from <= |c.s| && offsetCount <= offsets.Length
    modifies offsets
    ensures var slots := offsetCount - offsetCount % 2;
      rc != DFA_WSSIZE ==>
        Ascending(ends, from, |c.s|) && rc == MatchCount(|ends|, slots) &&
        (forall e: nat :: e in ends <==> StateMatches.SomeEnd(Leftmost.WaysAt(StateMatches.Loose(c), b, more, vec, from), e)) &&
        var shown := if 2 * |ends| <= slots then |ends| else slots / 2;
        (forall i :: 0 <= i < shown ==> offsets[2 * i] == from && offsets[2 * i + 1] == ends[|ends| - 1 - i]) &&
        forall k :: 2 * shown <= k < offsets.Length ==> offsets[k] == old(offsets[k])
    ensures var slots := offsetCount - offsetCount % 2;
      rc == -19 || rc == if ends == [] then -1 else if 2 * |ends| < slots || |ends| == 1 <= slots / 2 then |ends| else 0
    ensures var g := Lowering.Compile(b, more, c.nocase);
      (rc == -19 <==> Run(EncProgram(g), c, Span(g), room, from).Full?) &&
      forall m: nat :: Roomy(EncProgram(g), m) <= room && (TalliedGroup(g, m) || |c.s| - from <= m) ==> rc != -19
  {
    hide EncProgram, Lowering.Compile, Span, SkipAlts, Leftmost.WaysAt, Run, MatchCount, StateMatches.SomeEnd, Roomy, TalliedGroup;
    ghost var g := Lowering.Compile(b, more, c.nocase);
    PatternEnd(c, b, more);
    StateMatches.PatternIsLoose(c, b, more, vec, room, from);
    ghost var f := Run(EncProgram(g), c, Span(g), room, from);
    ends := if f.Found? then f.ends else [];
    var scan := new StateScan(EncProgram(Lowering.Compile(b, more, c.nocase)), c, offsets, offsetCount, room);
    rc := scan.Exec(from);
    CountIs(|ends|, offsetCount - offsetCount % 2);
    forall m: nat | Roomy(EncProgram(g), m) <= room && (TalliedGroup(g, m) || |c.s| - from <= m) ensures !f.Full? {
      PatternFits(c, b, more, room, from, m);
    }
  }

  lemma CountIs(n: nat, slots: nat)
    ensures MatchCount(n, slots) == if n == 0 then -1 else if 2 * n < slots || n == 1 <= slots / 2 then n else 0
  {
  }
}
