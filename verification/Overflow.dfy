/** A vector that is too small: match() runs as it would with room for every group, but
    for the groups that it cannot record, and says so if one of them is set. */
module Overflow {
  import opened Bytes
  import opened Code
  import opened Layout
  import opened Semantics
  import opened Machine
  import opened Simulation
  import opened Pattern
  import opened Lowering
  import opened Limits
  import opened Leftover
  import opened Emptiness
  import opened Shape
  import opened Theorems
  import opened Leftmost
  import opened FirstByte
  import opened Study
  import opened Bumpalong

  /** One more than the highest number that a group can have. */
  const GROUPS: nat := 0x1_0000

  /** md with room for every group, and a depth limit that does no harm. */
  function Full(md: Md): Md { md.(offsetEnd := 3 * GROUPS, rlimit := md.limit) }

  /** The working slot of group n. */
  function Slot(vec: seq<int>, n: nat): int
    requires 0 < n <= |vec|
  {
    vec[|vec| - n]
  }

  ghost predicate SamePlaces(md: Md, vec: seq<int>, wide: seq<int>)
    requires md.offsetEnd % 3 == 0 && |vec| == md.offsetEnd <= 3 * GROUPS == |wide|
  {
    (forall i :: 0 <= i < md.OffsetMax() ==> wide[i] == vec[i]) &&
    forall n: nat :: 0 < 2 * n < md.OffsetMax() ==> Slot(wide, n) == Slot(vec, n)
  }

  /** No group is set that has no room. */
  ghost predicate NoneBeyond(md: Md, wide: seq<int>)
    requires |wide| == 3 * GROUPS
  {
    forall i :: md.OffsetMax() <= i < 2 * GROUPS ==> wide[i] == -1
  }

  ghost predicate Alike(md: Md, st: State, st': State) {
    md.offsetEnd % 3 == 0 && |st.vec| == md.offsetEnd <= 3 * GROUPS == |st'.vec| && st'.count == st.count &&
    SamePlaces(md, st.vec, st'.vec) && (st.overflow || NoneBeyond(md, st'.vec))
  }

  /** The same place in subject, code and chain; not as deep as the calls made so far. */
  predicate SameFrame(f: Frame, f': Frame, depth: int) {
    f' == f.(top := f'.top, rdepth := f'.rdepth) && f'.rdepth <= depth
  }

  ghost predicate Together(md: Md, st: State, st': State, f: Frame, f': Frame, depth: int) {
    Wf(md, st, f) && Wf(Full(md), st', f') && Alike(md, st, st') && SameFrame(f, f', depth)
  }

  /** The outcomes agree, and a flag that is set stays so. */
  ghost predicate OutAlike(md: Md, st: State, o: Out, o': Out) {
    HitLimit(o) ||
    (o'.rc == o.rc && Alike(md, o.st, o'.st) && (o.rc == MATCH ==> o'.st.endPtr == o.st.endPtr) &&
     (st.overflow ==> o.st.overflow))
  }

  lemma GetFits(code: seq<Byte>, pc: nat)
    ensures Get(code, pc) < GROUPS
  {
  }

  lemma {:induction false} CallAlike(md: Md, st: State, st': State, f: Frame, f': Frame, cbe: bool)
    requires Together(md, st, st', f, f', st.count)
    ensures OutAlike(md, st, Call(md, st, f, cbe), Call(Full(md), st', f', cbe))
    decreases md.limit - st.count, 0, 0
  {
    hide Run;
    if st.count < md.limit && f.rdepth < md.rlimit {
      RunAlike(md, st.(count := st.count + 1), st'.(count := st.count + 1), if cbe then f.(chain := [f.eptr] + f.chain) else f,
               if cbe then f'.(chain := [f.eptr] + f'.chain) else f');
    }
  }

  lemma {:induction false} DeeperAlike(md: Md, st: State, st': State, f: Frame, f': Frame, cbe: bool)
    requires Together(md, st, st', f, f', st.count - 1)
    ensures OutAlike(md, st, Deeper(md, st, f, cbe), Deeper(Full(md), st', f', cbe))
    decreases md.limit - st.count, 0, 1
  {
    CallAlike(md, st, st', f.(rdepth := f.rdepth + 1), f'.(rdepth := f'.rdepth + 1), cbe);
  }

  lemma DecodeFull(md: Md, pc: nat)
    ensures DecodeRepeat(md, pc) == DecodeRepeat(Full(md), pc)
    ensures IsRepeatOp(At(md.code, pc)) ==> pc < |md.code| && pc < DecodeRepeat(md, pc).next
  {
  }

  lemma {:induction false} RunAlike(md: Md, st: State, st': State, f: Frame, f': Frame)
    requires Together(md, st, st', f, f', st.count - 1)
    ensures OutAlike(md, st, Run(md, st, f), Run(Full(md), st', f'))
    decreases md.limit - st.count, 1, |md.code| - f.pc, 2
  {
    hide Call, Deeper, RunRepeat, RunBra, RunKet, DecodeRepeat, SkipAlts, Get, Alike;
    var pc := f.pc;
    var op := At(md.code, pc);
    DecodeFull(md, pc);
    if op == OP_END {
      AlikeEnd(md, st, st', f.eptr, f.top, f'.top);
    } else if op in {OP_SOD, OP_EODN, OP_EOD, OP_CIRC, OP_DOLL} {
      if ZeroOk(md.c, op, f.eptr) { RunAlike(md, st, st', f.(pc := pc + 1), f'.(pc := pc + 1)); }
    } else if IsRepeatOp(op) {
      RepeatAlike(md, st, st', f, f', DecodeRepeat(md, pc));
    } else if op == OP_CBRA || op == OP_SCBRA || op == OP_BRA || op == OP_SBRA {
      BraAlike(md, st, st', f, f');
    } else if op == OP_ALT {
      if SkipAlts(md.code, pc) != pc { RunAlike(md, st, st', f.(pc := SkipAlts(md.code, pc)), f'.(pc := SkipAlts(md.code, pc))); }
    } else if op == OP_BRAZERO {
      EitherAlike(md, st, st', f, f', pc + 1, SkipAlts(md.code, pc + 1) + 3);
    } else if op == OP_BRAMINZERO {
      EitherAlike(md, st, st', f, f', SkipAlts(md.code, pc + 1) + 3, pc + 1);
    } else if op == OP_SKIPZERO {
      var after := SkipAlts(md.code, pc + 1) + 3;
      RunAlike(md, st, st', f.(pc := after), f'.(pc := after));
    } else if OP_KET <= op <= OP_KETRMIN {
      KetAlike(md, st, st', f, f');
    }
  }

  lemma AlikeEnd(md: Md, st: State, st': State, eptr: nat, top: nat, top': nat)
    requires Alike(md, st, st')
    ensures Alike(md, st.(endPtr := eptr, endTop := top), st'.(endPtr := eptr, endTop := top'))
  {
  }

  /** One way on, and if it fails another. */
  lemma {:induction false} EitherAlike(md: Md, st: State, st': State, f: Frame, f': Frame, first: nat, second: nat)
    requires Together(md, st, st', f, f', st.count - 1) && f.pc < |md.code| && f.pc < second
    ensures
      var o, o' := Deeper(md, st, f.(pc := first), false), Deeper(Full(md), st', f'.(pc := first), false);
      OutAlike(md, st, if o.rc != NOMATCH then o else Run(md, o.st, f.(pc := second)),
               if o'.rc != NOMATCH then o' else Run(Full(md), o'.st, f'.(pc := second)))
    decreases md.limit - st.count, 1, |md.code| - f.pc, 1
  {
    hide Run, Call, Deeper, Alike;
    DeeperAlike(md, st, st', f.(pc := first), f'.(pc := first), false);
    var o, o' := Deeper(md, st, f.(pc := first), false), Deeper(Full(md), st', f'.(pc := first), false);
    if o.rc == NOMATCH { RunAlike(md, o.st, o'.st, f.(pc := second), f'.(pc := second)); }
  }

  lemma {:induction false} RepeatAlike(md: Md, st: State, st': State, f: Frame, f': Frame, d: Repeat)
    requires Together(md, st, st', f, f', st.count - 1) && f.pc < |md.code| && f.pc < d.next
    ensures OutAlike(md, st, RunRepeat(md, st, f, d), RunRepeat(Full(md), st', f', d))
    decreases md.limit - st.count, 1, |md.code| - f.pc, 1
  {
    hide Run, Lazily, WalkBack, Longest, Alike;
    if MinOk(md.c, d.x, f.eptr, d.min) {
      var first := f.eptr + d.min;
      var g, g' := f.(eptr := first, pc := d.next), f'.(eptr := first, pc := d.next);
      var last := Longest(md.c, d.x, first, if d.max < 0 then -1 else if d.max < d.min then 0 else d.max - d.min);
      RunAlike(md, st, st', g, g');
      RunAlike(md, st, st', g.(eptr := last), g'.(eptr := last));
      LazilyAlike(md, st, st', g, g', d, d.min);
      WalkAlike(md, st, st', g.(eptr := last), g'.(eptr := last), first);
    }
  }

  lemma {:induction false} LazilyAlike(md: Md, st: State, st': State, f: Frame, f': Frame, d: Repeat, fi: nat)
    requires Together(md, st, st', f, f', st.count - 1)
    ensures OutAlike(md, st, Lazily(md, st, f, d, fi), Lazily(Full(md), st', f', d, fi))
    decreases md.limit - st.count, 1, |md.code| - f.pc, 3, |md.c.s| - f.eptr
  {
    hide Run, Call, Deeper, Alike;
    DeeperAlike(md, st, st', f, f', false);
    var o, o' := Deeper(md, st, f, false), Deeper(Full(md), st', f', false);
    if o.rc == NOMATCH && AcceptsAt(md.c, d.x, f.eptr) {
      LazilyAlike(md, o.st, o'.st, f.(eptr := f.eptr + 1), f'.(eptr := f.eptr + 1), d, fi + 1);
    }
  }

  lemma {:induction false} WalkAlike(md: Md, st: State, st': State, f: Frame, f': Frame, pp: nat)
    requires Together(md, st, st', f, f', st.count - 1)
    ensures OutAlike(md, st, WalkBack(md, st, f, pp), WalkBack(Full(md), st', f', pp))
    decreases md.limit - st.count, 1, |md.code| - f.pc, 3, f.eptr
  {
    hide Run, Call, Deeper, Alike;
    DeeperAlike(md, st, st', f, f', false);
    var o, o' := Deeper(md, st, f, false), Deeper(Full(md), st', f', false);
    if o.rc == NOMATCH && pp <= f.eptr && f.eptr > 0 { WalkAlike(md, o.st, o'.st, f.(eptr := f.eptr - 1), f'.(eptr := f.eptr - 1), pp); }
  }

  // ---------- brackets ----------

  /** A group with room in both vectors, */
  lemma SlotAlike(md: Md, st: State, st': State, n: nat, x: int)
    requires Alike(md, st, st') && 0 < 2 * n < md.OffsetMax()
    ensures Alike(md, st.(vec := st.vec[md.offsetEnd - n := x]), st'.(vec := st'.vec[3 * GROUPS - n := x]))
  {
    var v, w := st.vec[md.offsetEnd - n := x], st'.vec[3 * GROUPS - n := x];
    forall k: nat | 0 < 2 * k < md.OffsetMax() ensures Slot(w, k) == Slot(v, k) {
      assert Slot(st'.vec, k) == Slot(st.vec, k);
    }
  }

  /** and one with room in the full vector only. */
  lemma SlotBeyond(md: Md, st: State, st': State, n: nat, x: int)
    requires Alike(md, st, st') && md.OffsetMax() <= 2 * n < 2 * GROUPS && n > 0
    ensures Alike(md, st, st'.(vec := st'.vec[3 * GROUPS - n := x]))
  {
    var w := st'.vec[3 * GROUPS - n := x];
    forall k: nat | 0 < 2 * k < md.OffsetMax() ensures Slot(w, k) == Slot(st.vec, k) {
      assert Slot(st'.vec, k) == Slot(st.vec, k);
    }
  }

  lemma RestoreAlike(md: Md, st: State, st': State, o: State, o': State, n: nat)
    requires Alike(md, st, st') && Alike(md, o, o') && 0 < 2 * n < md.OffsetMax()
    ensures Alike(md, o.(vec := Restore(o.vec, st.vec, n, md.offsetEnd)), o'.(vec := Restore(o'.vec, st'.vec, n, 3 * GROUPS)))
  {
    var v, w := Restore(o.vec, st.vec, n, md.offsetEnd), Restore(o'.vec, st'.vec, n, 3 * GROUPS);
    assert Slot(st'.vec, n) == Slot(st.vec, n);
    assert st'.vec[2 * n] == st.vec[2 * n] && st'.vec[2 * n + 1] == st.vec[2 * n + 1];
    assert SamePlaces(md, v, w) by {
      forall k: nat | 0 < 2 * k < md.OffsetMax() ensures Slot(w, k) == Slot(v, k) {
        assert Slot(o'.vec, k) == Slot(o.vec, k);
      }
    }
    assert NoneBeyond(md, o'.vec) ==> NoneBeyond(md, w);
    hide Restore, SamePlaces, NoneBeyond;
  }

  lemma RestoreBeyond(md: Md, st: State, st': State, o: State, o': State, n: nat)
    requires Alike(md, st, st') && Alike(md, o, o') && md.OffsetMax() <= 2 * n < 2 * GROUPS && n > 0 && (st.overflow ==> o.overflow)
    ensures Alike(md, o, o'.(vec := Restore(o'.vec, st'.vec, n, 3 * GROUPS)))
  {
    var w := Restore(o'.vec, st'.vec, n, 3 * GROUPS);
    forall k: nat | 0 < 2 * k < md.OffsetMax() ensures Slot(w, k) == Slot(o.vec, k) {
      assert Slot(o'.vec, k) == Slot(o.vec, k);
    }
  }

  lemma {:induction false} BraAlike(md: Md, st: State, st': State, f: Frame, f': Frame)
    requires Together(md, st, st', f, f', st.count - 1) && f.pc < |md.code|
    ensures OutAlike(md, st, RunBra(md, st, f), RunBra(Full(md), st', f'))
    decreases md.limit - st.count, 1, |md.code| - f.pc, 1
  {
    hide Run, Call, Deeper, CapAlts, BraAlts, Alike, Restore;
    var op, n := md.code[f.pc], Get(md.code, f.pc + 3);
    var cbe := op >= OP_SBRA;
    GetFits(md.code, f.pc + 3);
    AlikeLen(md, st, st');
    if !(op == OP_CBRA || op == OP_SCBRA) || n == 0 {
      AltsAlike(md, st, st', f, f', cbe);
    } else if 2 * n < md.OffsetMax() {
      var in_, in_' := st.(vec := st.vec[md.offsetEnd - n := f.eptr]), st'.(vec := st'.vec[3 * GROUPS - n := f.eptr]);
      SlotAlike(md, st, st', n, f.eptr);
      CapAlike(md, in_, in_', f, f', cbe);
      var o, o' := CapAlts(md, in_, f, cbe), CapAlts(Full(md), in_', f', cbe);
      if o.rc == NOMATCH { RestoreAlike(md, st, st', o.st, o'.st, n); }
    } else {
      var in_' := st'.(vec := st'.vec[3 * GROUPS - n := f.eptr]);
      SlotBeyond(md, st, st', n, f.eptr);
      MixedAlike(md, st, in_', f, f', cbe);
      var o, o' := BraAlts(md, st, f, cbe), CapAlts(Full(md), in_', f', cbe);
      if o.rc == NOMATCH { RestoreBeyond(md, st, st', o.st, o'.st, n); }
    }
  }

  lemma AlikeLen(md: Md, st: State, st': State)
    requires Alike(md, st, st')
    ensures |st.vec| == md.offsetEnd <= 3 * GROUPS == |st'.vec|
  {
  }

  lemma {:induction false} CapAlike(md: Md, st: State, st': State, f: Frame, f': Frame, cbe: bool)
    requires Together(md, st, st', f, f', st.count - 1)
    ensures OutAlike(md, st, CapAlts(md, st, f, cbe), CapAlts(Full(md), st', f', cbe))
    decreases md.limit - st.count, 1, |md.code| - f.pc, 0
  {
    hide Run, Call, Deeper, Alike;
    var in_ := f.pc + OpenLen(At(md.code, f.pc));
    DeeperAlike(md, st, st', f.(pc := in_), f'.(pc := in_), cbe);
    var o, o' := Deeper(md, st, f.(pc := in_), cbe), Deeper(Full(md), st', f'.(pc := in_), cbe);
    var next := f.pc + Get(md.code, f.pc + 1);
    if o.rc == NOMATCH && f.pc < next && At(md.code, next) == OP_ALT {
      CapAlike(md, o.st, o'.st, f.(pc := next), f'.(pc := next), cbe);
    }
  }

  lemma {:induction false} AltsAlike(md: Md, st: State, st': State, f: Frame, f': Frame, cbe: bool)
    requires Together(md, st, st', f, f', st.count - 1)
    ensures OutAlike(md, st, BraAlts(md, st, f, cbe), BraAlts(Full(md), st', f', cbe))
    decreases md.limit - st.count, 1, |md.code| - f.pc, 0
  {
    hide Run, Call, Deeper, Alike;
    var in_, next := f.pc + OpenLen(At(md.code, f.pc)), f.pc + Get(md.code, f.pc + 1);
    CallAlike(md, st, st', f.(pc := in_), f'.(pc := in_), false);
    DeeperAlike(md, st, st', f.(pc := in_), f'.(pc := in_), cbe);
    var o, o' := Deeper(md, st, f.(pc := in_), cbe), Deeper(Full(md), st', f'.(pc := in_), cbe);
    if o.rc == NOMATCH && At(md.code, next) == OP_ALT && next != f.pc {
      AltsAlike(md, o.st, o'.st, f.(pc := next), f'.(pc := next), cbe);
    }
  }

  /** Without room for its group, a bracket is run as one that does not capture. */
  lemma {:induction false} MixedAlike(md: Md, st: State, st': State, f: Frame, f': Frame, cbe: bool)
    requires Together(md, st, st', f, f', st.count - 1)
    ensures OutAlike(md, st, BraAlts(md, st, f, cbe), CapAlts(Full(md), st', f', cbe))
    decreases md.limit - st.count, 1, |md.code| - f.pc, 0
  {
    hide Run, Call, Alike;
    var in_, next := f.pc + OpenLen(At(md.code, f.pc)), f.pc + Get(md.code, f.pc + 1);
    if (At(md.code, next) != OP_ALT || next == f.pc) && !cbe {
      CallAlike(md, st, st', f.(pc := in_), f'.(pc := in_, rdepth := f'.rdepth + 1), false);
    } else {
      DeeperAlike(md, st, st', f.(pc := in_), f'.(pc := in_), cbe);
      var o, o' := Deeper(md, st, f.(pc := in_), cbe), Deeper(Full(md), st', f'.(pc := in_), cbe);
      if o.rc == NOMATCH && At(md.code, next) == OP_ALT && next != f.pc {
        MixedAlike(md, o.st, o'.st, f.(pc := next), f'.(pc := next), cbe);
      }
    }
  }

  /** At the ket of a group that has no room the flag is set, so that nothing need be said
      about what the full vector holds there. */
  lemma KetStateAlike(md: Md, st: State, st': State, n: nat, eptr: nat)
    requires Alike(md, st, st') && n < GROUPS
    ensures Alike(md, KetState(md, st, n, eptr), KetState(Full(md), st', n, eptr))
    ensures st.overflow || md.OffsetMax() <= 2 * n ==> KetState(md, st, n, eptr).overflow
  {
    var v, w := KetState(md, st, n, eptr).vec, KetState(Full(md), st', n, eptr).vec;
    if n > 0 {
      if 2 * n < md.OffsetMax() { assert Slot(st'.vec, n) == Slot(st.vec, n); }
      forall k: nat | 0 < 2 * k < md.OffsetMax() ensures Slot(w, k) == Slot(v, k) {
        assert Slot(st'.vec, k) == Slot(st.vec, k);
      }
    }
  }

  lemma {:induction false} KetAlike(md: Md, st: State, st': State, f: Frame, f': Frame)
    requires Together(md, st, st', f, f', st.count - 1) && f.pc < |md.code|
    ensures OutAlike(md, st, RunKet(md, st, f), RunKet(Full(md), st', f'))
    decreases md.limit - st.count, 1, |md.code| - f.pc, 1
  {
    hide AfterClose, Get, Alike, KetState;
    AlikeLen(md, st, st');
    var prev: int := f.pc - Get(md.code, f.pc + 1);
    var bra := At(md.code, prev);
    var s, cap := bra == OP_SBRA || bra == OP_SCBRA, bra == OP_CBRA || bra == OP_SCBRA;
    if !(prev < 0 || !(s || cap || bra == OP_BRA) || (s && f.chain == [])) {
      var n := Get(md.code, prev + 3);
      GetFits(md.code, prev + 3);
      KetStateAlike(md, st, st', n, f.eptr);
      var chain := if s then f.chain[1..] else f.chain;
      CloseAlike(md, if cap then KetState(md, st, n, f.eptr) else st, if cap then KetState(Full(md), st', n, f.eptr) else st',
                 f.(chain := chain, top := if cap then KetTop(md, f.top, n) else f.top),
                 f'.(chain := chain, top := if cap then KetTop(Full(md), f'.top, n) else f'.top),
                 prev, s, s && f.eptr == f.chain[0]);
    }
  }

  lemma {:induction false} CloseAlike(md: Md, st: State, st': State, f: Frame, f': Frame, prev: nat, s: bool, empty: bool)
    requires Together(md, st, st', f, f', st.count - 1) && f.pc < |md.code|
    ensures
      OutAlike(md, st, AfterClose(md, st, f, prev, s, empty), AfterClose(Full(md), st', f', prev, s, empty))
    decreases md.limit - st.count, 1, |md.code| - f.pc, 0
  {
    hide Run, Call, Deeper, Alike;
    var after, again, after', again' := f.(pc := f.pc + 3), f.(pc := prev), f'.(pc := f.pc + 3), f'.(pc := prev);
    if md.code[f.pc] == OP_KET || empty {
      RunAlike(md, st, st', after, after');
    } else if md.code[f.pc] == OP_KETRMIN {
      DeeperAlike(md, st, st', after, after', false);
      var o, o' := Deeper(md, st, after, false), Deeper(Full(md), st', after', false);
      if o.rc == NOMATCH {
        if s { DeeperAlike(md, o.st, o'.st, again, again', true); } else { CallAlike(md, o.st, o'.st, again, again', false); }
      }
    } else {
      DeeperAlike(md, st, st', again, again', s);
      var o, o' := Deeper(md, st, again, s), Deeper(Full(md), st', again', s);
      if o.rc == NOMATCH { CallAlike(md, o.st, o'.st, after, after', false); }
    }
  }

  // ---------- what the value says ----------

  /** Captures unset, with room for every group. */
  function Unset(): (v: seq<int>)
    ensures |v| == 2 * GROUPS && forall i :: 0 <= i < |v| ==> v[i] == -1
  {
    seq(2 * GROUPS, i => -1)
  }

  /** The full vector that goes with st. */
  function Widened(md: Md, st: State): (v: seq<int>)
    requires md.offsetEnd % 3 == 0 && |st.vec| == md.offsetEnd <= 3 * GROUPS
    ensures |v| == 3 * GROUPS
  {
    seq(3 * GROUPS, i requires 0 <= i < 3 * GROUPS =>
      if i < md.OffsetMax() then st.vec[i]
      else if i >= 2 * GROUPS && 2 * (3 * GROUPS - i) < md.OffsetMax() then st.vec[md.offsetEnd - (3 * GROUPS - i)]
      else -1)
  }

  lemma WidenedAlike(md: Md, st: State)
    requires md.offsetEnd % 3 == 0 && |st.vec| == md.offsetEnd <= 3 * GROUPS
    ensures Alike(md, st, st.(vec := Widened(md, st)))
  {
  }

  lemma WidenedUnset(md: Md, st: State)
    requires md.offsetEnd % 3 == 0 && |st.vec| == md.offsetEnd <= 3 * GROUPS && Blank(md, st.vec)
    ensures Widened(md, st)[..2 * GROUPS] == Unset()
  {
  }

  /** No group that has room is set. */
  ghost predicate Blank(md: Md, vec: seq<int>) {
    md.offsetEnd % 3 == 0 && |vec| == md.offsetEnd && forall i :: 0 <= i < md.OffsetMax() ==> vec[i] == -1
  }

  /** x sets a group that has no room. */
  ghost predicate Beyond(md: Md, x: seq<int>) {
    exists n: nat :: md.OffsetMax() <= 2 * n && 2 * n + 1 < |x| && Set(x, n)
  }

  predicate Set(x: seq<int>, n: nat)
    requires 2 * n + 1 < |x|
  {
    x[2 * n] != -1 || x[2 * n + 1] != -1
  }

  /** The vector holds of x, a way of matching with room for all groups, what it has room
      for; and if there is more, overflow says so. */
  ghost predicate Cut(md: Md, st: State, x: Res) {
    |st.vec| == md.offsetEnd && |x.vec| == 2 * GROUPS && md.OffsetMax() <= |x.vec| && md.OffsetMax() <= |st.vec| &&
    st.endPtr == x.pos && x.vec[..md.OffsetMax()] == st.vec[..md.OffsetMax()] && (Beyond(md, x.vec) ==> st.overflow)
  }

  ghost predicate CutOf(md: Md, st: State, b: Branch, more: Branches, ways: seq<Res>) {
    exists x: Res :: x in ways && (Usable(b, more, md.c.nocase) ==> x == ways[0]) && Cut(md, st, x)
  }

  lemma CutIs(md: Md, st: State, st': State, x: Res)
    requires Alike(md, st, st') && st.endPtr == st'.endPtr && Matched(Full(md), st', x)
    ensures Cut(md, st, x)
  {
    assert x.vec == st'.vec[..2 * GROUPS];
    if !st.overflow {
      forall n: nat | md.OffsetMax() <= 2 * n && 2 * n + 1 < |x.vec| ensures !Set(x.vec, n) {
        assert st'.vec[2 * n] == x.vec[2 * n] && st'.vec[2 * n + 1] == x.vec[2 * n + 1];
      }
    }
  }

  lemma WideRunning(md: Md, st: State, b: Branch, more: Branches)
    requires Running(md, st, b, more) && md.offsetEnd <= 3 * GROUPS && Blank(md, st.vec)
    ensures var st' := st.(vec := Widened(md, st));
      Running(Full(md), st', b, more) && Start(Full(md), st') == Res(md.mstart, Unset(), 2) && Together(md, st, st', Begin(md), Begin(md), st.count)
    ensures Usable(b, more, md.c.nocase) ==> Launched(Full(md), st.(vec := Widened(md, st)), b, more)
  {
    WidenedAlike(md, st);
    WidenedUnset(md, st);
    hide Alike, Compile, EncProgram, Compilable, GuardedGroup, TameGroup, Widened;
  }

  /** match() on a compiled pattern, from unset captures and with a vector that may be too
      small: what it reports is cut from one of the ways of matching with room for all
      groups, from the first of them if the pattern is usable; and if that way sets a group
      that has no room, overflow is set. */
  lemma MatchIsCut(md: Md, st: State, b: Branch, more: Branches)
    requires Running(md, st, b, more) && md.offsetEnd <= 3 * GROUPS && Blank(md, st.vec)
    ensures var o := Call(md, st, Begin(md), false);
      o.rc == MATCH ==> CutOf(md, o.st, b, more, Filter(md.c, md.mstart, Matches(md.c, b, more, Res(md.mstart, Unset(), 2))))
  {
    hide Call, Compile, EncProgram, Halting, Usable, Matches, Filter, Alike, Matched, OneOf, CutOf, Widened, Unset;
    var st' := st.(vec := Widened(md, st));
    WideRunning(md, st, b, more);
    CallAlike(md, st, st', Begin(md), Begin(md), false);
    BeginFull(md);
    var o, o' := Call(md, st, Begin(md), false), Call(Full(md), st', Begin(md), false);
    if o.rc == MATCH {
      MatchIsSome(Full(md), st', b, more);
      if Usable(b, more, md.c.nocase) { MatchIsFirst(Full(md), st', b, more); }
      CutFound(md, st, o, o', b, more, Filter(md.c, md.mstart, Matches(md.c, b, more, Res(md.mstart, Unset(), 2))));
    }
  }

  lemma BeginFull(md: Md)
    ensures Begin(Full(md)) == Begin(md) && Full(md).c == md.c && Full(md).mstart == md.mstart
  {
  }

  lemma CutFound(md: Md, st: State, o: Out, o': Out, b: Branch, more: Branches, ways: seq<Res>)
    requires OutAlike(md, st, o, o') && o.rc == MATCH && ways != []
    requires o'.rc == MATCH ==> OneOf(Full(md), o'.st, ways) && (Usable(b, more, md.c.nocase) ==> Matched(Full(md), o'.st, ways[0]))
    ensures CutOf(md, o.st, b, more, ways)
  {
    hide Alike, Matched, Cut, Usable;
    forall x: Res | Matched(Full(md), o'.st, x) ensures Cut(md, o.st, x) { CutIs(md, o.st, o'.st, x); }
    if Usable(b, more, md.c.nocase) { assert Cut(md, o.st, ways[0]); }
  }

  // ---------- the search ----------

  ghost predicate Ready(md: Md, st: State, b: Branch, more: Branches, resetCount: nat) {
    Sized(md, st, resetCount) && Halting(b, more, md.c.nocase) && md.code == EncProgram(Compile(b, more, md.c.nocase)) &&
    md.OffsetMax() <= resetCount && md.offsetEnd <= 3 * GROUPS
  }

  lemma ReadyAt(md: Md, st: State, b: Branch, more: Branches, resetCount: nat, at: nat)
    requires Ready(md, st, b, more, resetCount) && at <= |md.c.s|
    ensures var st1 := st.(vec := Cleared(st.vec, resetCount), count := 0);
      Running(md.(mstart := at), st1, b, more) && Blank(md.(mstart := at), st1.vec)
  {
    hide Halting, EncProgram, Compile;
  }

  /** Every start begins with unset captures. */
  lemma {:induction false} SearchIsCut(md: Md, st: State, info: Info, forced: bool, startOffset: nat, resetCount: nat,
                                       study: Option<Map>, start: nat, reqPtr: int, b: Branch, more: Branches)
    requires Ready(md, st, b, more, resetCount) && start <= |md.c.s|
    ensures var e := SearchFrom(md, st, info, forced, startOffset, resetCount, study, start, reqPtr);
      e.rc == MATCH ==> e.start <= |md.c.s| && CutOf(md, e.st, b, more, WaysAt(md.c, b, more, Unset(), e.start))
    decreases |md.c.s| - start
  {
    hide Call, AdvanceTo, ReqScan, Cleared, Matches, Filter, Halting, Usable, EncProgram, Compile, Unset, CutOf;
    var c, anchored := md.c, info.anchored || forced;
    var st1 := st.(vec := Cleared(st.vec, resetCount));
    var at := AdvanceTo(c, info, anchored, study, startOffset, start);
    var (missing, ptr) := ReqScan(c, info, anchored, at, reqPtr);
    if !missing {
      ReadyAt(md, st, b, more, resetCount, at);
      MatchIsCut(md.(mstart := at), st1.(count := 0), b, more);
      var o := Call(md.(mstart := at), st1.(count := 0), Begin(md.(mstart := at)), false);
      CutAt(md, at, o.st, b, more, WaysAt(md.c, b, more, Unset(), at));
      if o.rc == NOMATCH && !anchored && at + 1 <= |c.s| {
        SearchIsCut(md, o.st, info, forced, startOffset, resetCount, study, at + 1, ptr, b, more);
      }
    }
  }

  lemma CutAt(md: Md, at: nat, st: State, b: Branch, more: Branches, ways: seq<Res>)
    ensures CutOf(md.(mstart := at), st, b, more, ways) == CutOf(md, st, b, more, ways)
  {
    hide Usable;
  }

  /** A search without success leaves the captures unset that it has cleared, and the rest
      of the vector as it was. */
  lemma {:induction false} SearchLeaves(md: Md, st: State, info: Info, forced: bool, startOffset: nat, resetCount: nat,
                                        study: Option<Map>, start: nat, reqPtr: int, b: Branch, more: Branches)
    requires Sized(md, st, resetCount) && Halting(b, more, md.c.nocase) && md.code == EncProgram(Compile(b, more, md.c.nocase)) && start <= |md.c.s|
    ensures var e := SearchFrom(md, st, info, forced, startOffset, resetCount, study, start, reqPtr);
      e.rc == NOMATCH ==> e.st.vec == Cleared(st.vec, resetCount)
    decreases |md.c.s| - start
  {
    hide Call, AdvanceTo, ReqScan, Cleared, Matches, Filter, Halting, EncProgram, Compile, OneOf;
    var c, anchored := md.c, info.anchored || forced;
    var st1 := st.(vec := Cleared(st.vec, resetCount));
    var at := AdvanceTo(c, info, anchored, study, startOffset, start);
    var (missing, ptr) := ReqScan(c, info, anchored, at, reqPtr);
    if !missing {
      var md1 := md.(mstart := at);
      MatchIsSome(md1, st1.(count := 0), b, more);
      var o := Call(md1, st1.(count := 0), Begin(md1), false);
      ClearedAgain(st.vec, resetCount);
      if o.rc == NOMATCH && !anchored && at + 1 <= |c.s| {
        SearchLeaves(md, o.st, info, forced, startOffset, resetCount, study, at + 1, ptr, b, more);
      }
    }
  }

  lemma ClearedAgain(vec: seq<int>, n: nat)
    requires n <= |vec|
    ensures Cleared(Cleared(vec, n), n) == Cleared(vec, n)
  {
  }
}
