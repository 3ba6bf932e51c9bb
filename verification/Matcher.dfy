/** match() as the program that it is: an opcode loop that calls itself, and updates
    the call counter and the offset vector in place. */
module Matcher {
  import opened Bytes
  import opened Code
  import opened Layout
  import opened Semantics
  import opened Machine

  /** How an opcode leaves the loop: with a result, on to other code, or to the label
      TAIL_RECURSE, where a call starts afresh in the same incarnation. */
  datatype Next = Ended(rc: RC) | GoOn(f: Frame) | Afresh(f: Frame)

  ghost function After(md: Md, st: State, n: Next): Out
    requires n.Ended? || Wf(md, st, n.f)
  {
    match n
    case Ended(rc) => Out(rc, st)
    case GoOn(f) => Run(md, st, f)
    case Afresh(f) => Call(md, st, f, false)
  }

  lemma RepeatGoesOn(md: Md, pc: nat)
    requires IsRepeatOp(At(md.code, pc))
    ensures pc < |md.code| && pc < DecodeRepeat(md, pc).next
  {
  }

  /** match_data: what the incarnations of match() share. */
  class MatchData {
    var md: Md
    const offsetVector: array<int>
    var matchCallCount: nat
    var offsetOverflow: bool
    var endMatchPtr: nat
    var endOffsetTop: nat

    constructor (md: Md, vector: array<int>)
      requires vector.Length == md.offsetEnd && md.offsetEnd % 3 == 0
      ensures this.md == md && offsetVector == vector && matchCallCount == 0 && Valid()
    {
      this.md, offsetVector, matchCallCount := md, vector, 0;
      offsetOverflow, endMatchPtr, endOffsetTop := false, 0, 0;
    }

    ghost predicate Valid()
      reads this
    {
      md.offsetEnd % 3 == 0 && offsetVector.Length == md.offsetEnd
    }

    ghost function View(): State
      reads this, offsetVector
    {
      State(matchCallCount, offsetVector[..], offsetOverflow, endMatchPtr, endOffsetTop)
    }

    /** RMATCH with the frame f. */
    method Match(f0: Frame, cbegroup: bool) returns (rc: RC)
      requires Valid() && Wf(md, View(), f0)
      modifies `matchCallCount, `offsetOverflow, `endMatchPtr, `endOffsetTop, offsetVector
      ensures Valid() && Out(rc, View()) == Call(md, old(View()), f0, cbegroup)
      ensures old(matchCallCount) < matchCallCount
      decreases md.limit - matchCallCount, 0
    {
      hide Run;
      var f, anew, cbe := f0, true, cbegroup;
      ghost var result := Call(md, View(), f0, cbegroup);
      while true
        invariant Valid() && Wf(md, View(), f)
        invariant old(matchCallCount) <= matchCallCount && (!anew ==> old(matchCallCount) < matchCallCount)
        invariant result == if anew then Call(md, View(), f, cbe) else Run(md, View(), f)
        decreases md.limit - matchCallCount, if anew then 0 else 1, |md.code| - f.pc
      {
        if anew {
          var over := matchCallCount >= md.limit;
          matchCallCount := matchCallCount + 1;
          if over { return MATCHLIMIT; }
          if f.rdepth >= md.rlimit { return RECURSIONLIMIT; }
          if cbe { f := f.(chain := [f.eptr] + f.chain); }
          anew := false;
        } else {
          var next := Step(f);
          match next {
            case Ended(r) => return r;
            case GoOn(f') => f := f';
            case Afresh(f') => f, anew, cbe := f', true, false;
          }
        }
      }
    }

    /** One opcode. */
    method Step(f: Frame) returns (next: Next)
      requires Valid() && Wf(md, View(), f)
      modifies `matchCallCount, `offsetOverflow, `endMatchPtr, `endOffsetTop, offsetVector
      ensures Valid() && (next.Ended? || Wf(md, View(), next.f))
      ensures After(md, View(), next) == Run(md, old(View()), f)
      ensures old(matchCallCount) <= matchCallCount
      ensures next.GoOn? ==> matchCallCount > old(matchCallCount) || (f.pc < next.f.pc && f.pc < |md.code|)
      decreases md.limit - matchCallCount, 3
    {
      hide RunRepeat, RunBra, RunKet, DecodeRepeat, Call, SkipAlts;
      var code, pc := md.code, f.pc;
      var op := At(code, pc);
      if op == OP_END {
        if md.c.notempty && f.eptr == md.mstart { return Ended(NOMATCH); }
        endMatchPtr, endOffsetTop := f.eptr, f.top;
        return Ended(MATCH);
      } else if op in {OP_SOD, OP_EODN, OP_EOD, OP_CIRC, OP_DOLL} {
        if ZeroOk(md.c, op, f.eptr) { return GoOn(f.(pc := pc + 1)); }
        return Ended(NOMATCH);
      } else if IsRepeatOp(op) {
        RepeatGoesOn(md, pc);
        next := RepeatStep(f, DecodeRepeat(md, pc));
      } else if op == OP_CBRA || op == OP_SCBRA || op == OP_BRA || op == OP_SBRA {
        next := BracketStep(f);
      } else if op == OP_ALT {
        var ket := SkipAlts(code, pc);
        if ket == pc { return Ended(UNKNOWN_OPCODE); }
        return GoOn(f.(pc := ket));
      } else if op == OP_BRAZERO {
        next := Prefixed(f, pc + 1, SkipAlts(code, pc + 1) + 3);
      } else if op == OP_BRAMINZERO {
        next := Prefixed(f, SkipAlts(code, pc + 1) + 3, pc + 1);
      } else if op == OP_SKIPZERO {
        return GoOn(f.(pc := SkipAlts(code, pc + 1) + 3));
      } else if OP_KET <= op <= OP_KETRMIN {
        next := KetStep(f);
      } else {
        return Ended(UNKNOWN_OPCODE);
      }
    }

    /** Try the code at first; if that fails go on at second. */
    method Prefixed(f: Frame, first: nat, second: nat) returns (next: Next)
      requires Valid() && Wf(md, View(), f)
      modifies `matchCallCount, `offsetOverflow, `endMatchPtr, `endOffsetTop, offsetVector
      ensures Valid() && (next.Ended? || Wf(md, View(), next.f))
      ensures var o := Deeper(md, old(View()), f.(pc := first), false);
        if o.rc != NOMATCH then next == Ended(o.rc) && View() == o.st else next == GoOn(f.(pc := second)) && View() == o.st
      ensures matchCallCount > old(matchCallCount)
      decreases md.limit - matchCallCount, 2
    {
      var rc := Match(f.(pc := first, rdepth := f.rdepth + 1), false);
      if rc != NOMATCH { return Ended(rc); }
      return GoOn(f.(pc := second));
    }

    /** A possibly repeated item: the minimum, then as many as its kind asks for. */
    method RepeatStep(f: Frame, d: Repeat) returns (next: Next)
      requires Valid() && Wf(md, View(), f) && f.pc < |md.code| && f.pc < d.next
      modifies `matchCallCount, `offsetOverflow, `endMatchPtr, `endOffsetTop, offsetVector
      ensures Valid() && (next.Ended? || Wf(md, View(), next.f))
      ensures After(md, View(), next) == RunRepeat(md, old(View()), f, d)
      ensures old(matchCallCount) <= matchCallCount && (next.GoOn? ==> next.f.pc == d.next) && !next.Afresh?
      decreases md.limit - matchCallCount, 2
    {
      hide Run, Call, Lazily, WalkBack;
      var eptr := f.eptr;
      for i := 0 to d.min
        invariant f.eptr + i == eptr <= |md.c.s| && MinOk(md.c, d.x, f.eptr, d.min) == MinOk(md.c, d.x, eptr, d.min - i)
      {
        if !AcceptsAt(md.c, d.x, eptr) { return Ended(NOMATCH); }
        eptr := eptr + 1;
      }
      if d.min == d.max { return GoOn(f.(eptr := eptr, pc := d.next)); }
      if d.lazy {
        var rc := Minimize(f.(eptr := eptr, pc := d.next), d);
        return Ended(rc);
      }
      var pp := eptr;
      var last := Furthest(eptr, d);
      if d.poss { return GoOn(f.(eptr := last, pc := d.next)); }
      var rc := Maximize(f.(eptr := last, pc := d.next), pp);
      return Ended(rc);
    }

    /** The furthest position that a maximizing repeat reaches. */
    method Furthest(pp: nat, d: Repeat) returns (eptr: nat)
      requires pp <= |md.c.s|
      ensures pp <= eptr <= |md.c.s|
      ensures eptr == Longest(md.c, d.x, pp, if d.max < 0 then -1 else if d.max < d.min then 0 else d.max - d.min)
    {
      eptr := pp;
      var i := d.min;
      while (d.max < 0 || i < d.max) && AcceptsAt(md.c, d.x, eptr)
        invariant pp <= eptr <= |md.c.s| && (d.max < 0 || i <= d.max || i == d.min)
        invariant Longest(md.c, d.x, pp, if d.max < 0 then -1 else if d.max < d.min then 0 else d.max - d.min) ==
                  Longest(md.c, d.x, eptr, if d.max < 0 then -1 else if d.max < i then 0 else d.max - i)
        decreases |md.c.s| - eptr
      {
        eptr, i := eptr + 1, i + 1;
      }
    }

    /** Try the rest of the pattern after ever more bytes. */
    method Minimize(f: Frame, d: Repeat) returns (rc: RC)
      requires Valid() && Wf(md, View(), f)
      modifies `matchCallCount, `offsetOverflow, `endMatchPtr, `endOffsetTop, offsetVector
      ensures Valid() && Out(rc, View()) == Lazily(md, old(View()), f, d, d.min)
      decreases md.limit - matchCallCount, 1
    {
      hide Run, Call;
      var eptr: nat, fi: nat := f.eptr, d.min;
      while true
        invariant Valid() && Wf(md, View(), f.(eptr := eptr)) && old(matchCallCount) <= matchCallCount
        invariant Lazily(md, old(View()), f, d, d.min) == Lazily(md, View(), f.(eptr := eptr), d, fi)
        decreases |md.c.s| - eptr
      {
        rc := Match(f.(eptr := eptr, rdepth := f.rdepth + 1), false);
        if rc != NOMATCH { return; }
        if (d.max >= 0 && fi >= d.max) || !AcceptsAt(md.c, d.x, eptr) { return NOMATCH; }
        eptr, fi := eptr + 1, fi + 1;
      }
    }

    /** Try the rest of the pattern from the furthest position back to pp. */
    method Maximize(f: Frame, pp: nat) returns (rc: RC)
      requires Valid() && Wf(md, View(), f) && pp <= f.eptr
      modifies `matchCallCount, `offsetOverflow, `endMatchPtr, `endOffsetTop, offsetVector
      ensures Valid() && Out(rc, View()) == WalkBack(md, old(View()), f, pp)
      decreases md.limit - matchCallCount, 1
    {
      hide Run, Call;
      var eptr: int := f.eptr;
      while eptr >= pp
        invariant pp - 1 <= eptr <= f.eptr && Valid() && Wf(md, View(), f) && old(matchCallCount) <= matchCallCount
        invariant WalkBack(md, old(View()), f, pp) ==
          if eptr < pp then Out(NOMATCH, View()) else WalkBack(md, View(), f.(eptr := eptr), pp)
        decreases eptr
      {
        rc := Match(f.(eptr := eptr, rdepth := f.rdepth + 1), false);
        if rc != NOMATCH { return; }
        eptr := eptr - 1;
      }
      return NOMATCH;
    }

    /** An opening bracket. A capturing one saves three slots, puts the start into the
        working slot, and puts all three back when no branch matches. */
    method BracketStep(f: Frame) returns (next: Next)
      requires Valid() && Wf(md, View(), f) && f.pc < |md.code|
      modifies `matchCallCount, `offsetOverflow, `endMatchPtr, `endOffsetTop, offsetVector
      ensures Valid() && (next.Ended? || Wf(md, View(), next.f))
      ensures After(md, View(), next) == RunBra(md, old(View()), f)
      ensures old(matchCallCount) <= matchCallCount && !next.GoOn?
      decreases md.limit - matchCallCount, 2
    {
      hide Run, Call, CapAlts, BraAlts;
      var op, number := md.code[f.pc], Get(md.code, f.pc + 3);
      var offset, cbe := 2 * number, op >= OP_SBRA;
      if (op == OP_CBRA || op == OP_SCBRA) && 0 < offset < md.OffsetMax() {
        var save1, save2 := offsetVector[offset], offsetVector[offset + 1];
        var save3 := offsetVector[md.offsetEnd - number];
        offsetVector[md.offsetEnd - number] := f.eptr;
        var rc := Capturing(f, cbe);
        if rc != NOMATCH { return Ended(rc); }
        offsetVector[offset] := save1;
        offsetVector[offset + 1] := save2;
        offsetVector[md.offsetEnd - number] := save3;
        return Ended(NOMATCH);
      }
      next := Plain(f, cbe);
    }

    /** Try the branches of a capturing bracket one after the other, until one does not fail. */
    method Capturing(f: Frame, cbe: bool) returns (rc: RC)
      requires Valid() && Wf(md, View(), f)
      modifies `matchCallCount, `offsetOverflow, `endMatchPtr, `endOffsetTop, offsetVector
      ensures Valid() && Out(rc, View()) == CapAlts(md, old(View()), f, cbe)
      decreases md.limit - matchCallCount, 1
    {
      hide Run, Call;
      var pc: nat := f.pc;
      while true
        invariant Valid() && Wf(md, View(), f.(pc := pc)) && old(matchCallCount) <= matchCallCount
        invariant CapAlts(md, old(View()), f, cbe) == CapAlts(md, View(), f.(pc := pc), cbe)
        decreases md.limit - matchCallCount
      {
        rc := Match(f.(pc := pc + OpenLen(At(md.code, pc)), rdepth := f.rdepth + 1), cbe);
        if rc != NOMATCH { return; }
        var link := Get(md.code, pc + 1);
        if link == 0 || At(md.code, pc + link) != OP_ALT { return; }
        pc := pc + link;
      }
    }

    /** The branches of a bracket that captures nothing: TAIL_RECURSE for the last. */
    method Plain(f: Frame, cbe: bool) returns (next: Next)
      requires Valid() && Wf(md, View(), f)
      modifies `matchCallCount, `offsetOverflow, `endMatchPtr, `endOffsetTop, offsetVector
      ensures Valid() && (next.Ended? || Wf(md, View(), next.f))
      ensures After(md, View(), next) == BraAlts(md, old(View()), f, cbe)
      ensures old(matchCallCount) <= matchCallCount && !next.GoOn?
      decreases md.limit - matchCallCount, 1
    {
      hide Run, Call;
      var pc: nat := f.pc;
      while true
        invariant Valid() && Wf(md, View(), f.(pc := pc)) && old(matchCallCount) <= matchCallCount
        invariant BraAlts(md, old(View()), f, cbe) == BraAlts(md, View(), f.(pc := pc), cbe)
        decreases md.limit - matchCallCount
      {
        var link, branch := Get(md.code, pc + 1), pc + OpenLen(At(md.code, pc));
        var last := link == 0 || At(md.code, pc + link) != OP_ALT;
        if last && !cbe { return Afresh(f.(pc := branch)); }
        var rc := Match(f.(pc := branch, rdepth := f.rdepth + 1), cbe);
        if rc != NOMATCH || last { return Ended(rc); }
        pc := pc + link;
      }
    }

    /** A closing ket. */
    method KetStep(f0: Frame) returns (next: Next)
      requires Valid() && Wf(md, View(), f0) && f0.pc < |md.code|
      modifies `matchCallCount, `offsetOverflow, `endMatchPtr, `endOffsetTop, offsetVector
      ensures Valid() && (next.Ended? || Wf(md, View(), next.f))
      ensures After(md, View(), next) == RunKet(md, old(View()), f0)
      ensures old(matchCallCount) <= matchCallCount && (next.GoOn? ==> next.f.pc > f0.pc)
      decreases md.limit - matchCallCount, 2
    {
      hide Run, Call, AfterClose;
      var code, f := md.code, f0;
      var prev: int := f.pc - Get(code, f.pc + 1);
      var bra := At(code, prev);
      var s, cap := bra == OP_SBRA || bra == OP_SCBRA, bra == OP_CBRA || bra == OP_SCBRA;
      if prev < 0 || !(s || cap || bra == OP_BRA) || (s && f.chain == []) { return Ended(UNKNOWN_OPCODE); }
      var savedEptr: int := -1;
      if s {
        savedEptr := f.chain[0];
        f := f.(chain := f.chain[1..]);
      }
      if cap {
        var number := Get(code, prev + 3);
        var offset := 2 * number;
        if 0 < offset < md.OffsetMax() {
          offsetVector[offset] := offsetVector[md.offsetEnd - number];
          offsetVector[offset + 1] := f.eptr;
          if f.top <= offset { f := f.(top := offset + 2); }
        } else {
          offsetOverflow := true;
        }
      }
      next := Close(f, prev, s, f.eptr == savedEptr);
    }

    /** After the bracket has been closed: on, or round again. */
    method Close(f: Frame, prev: nat, s: bool, empty: bool) returns (next: Next)
      requires Valid() && Wf(md, View(), f) && f.pc < |md.code|
      modifies `matchCallCount, `offsetOverflow, `endMatchPtr, `endOffsetTop, offsetVector
      ensures Valid() && (next.Ended? || Wf(md, View(), next.f))
      ensures After(md, View(), next) == AfterClose(md, old(View()), f, prev, s, empty)
      ensures old(matchCallCount) <= matchCallCount && (next.GoOn? ==> next.f.pc > f.pc)
      decreases md.limit - matchCallCount, 1
    {
      hide Run, Call;
      var after, again := f.(pc := f.pc + 3), f.(pc := prev);
      if md.code[f.pc] == OP_KET || empty { return GoOn(after); }
      if md.code[f.pc] == OP_KETRMIN {
        var rc := Match(after.(rdepth := f.rdepth + 1), false);
        if rc != NOMATCH { return Ended(rc); }
        if s {
          rc := Match(again.(rdepth := f.rdepth + 1), s);
          return Ended(rc);
        }
        return Afresh(again);
      }
      var rc := Match(again.(rdepth := f.rdepth + 1), s);
      if rc != NOMATCH { return Ended(rc); }
      return Afresh(after);
    }
  }
}
