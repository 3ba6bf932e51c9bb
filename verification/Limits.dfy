/** Raising the limits does not change the outcome of a run that hit none. */
module Limits {
  import opened Bytes
  import opened Code
  import opened Layout
  import opened Semantics
  import opened Machine

  predicate HitLimit(o: Out) { o.rc == MATCHLIMIT || o.rc == RECURSIONLIMIT }

  predicate Agrees(o: Out, o': Out) { HitLimit(o) || o' == o }

  /** md' is md with limits that are at least as high. */
  predicate Raised(md: Md, md': Md) {
    md' == md.(limit := md'.limit, rlimit := md'.rlimit) && md.limit <= md'.limit && md.rlimit <= md'.rlimit
  }

  lemma {:induction false} CallRaised(md: Md, md': Md, st: State, f: Frame, cbe: bool)
    requires Wf(md, st, f) && Raised(md, md')
    ensures Agrees(Call(md, st, f, cbe), Call(md', st, f, cbe))
    decreases md.limit - st.count, 0, 0
  {
    hide Run;
    if st.count < md.limit && f.rdepth < md.rlimit {
      RunRaised(md, md', st.(count := st.count + 1), if cbe then f.(chain := [f.eptr] + f.chain) else f);
    }
  }

  lemma {:induction false} DeeperRaised(md: Md, md': Md, st: State, f: Frame, cbe: bool)
    requires Wf(md, st, f) && Raised(md, md')
    ensures Agrees(Deeper(md, st, f, cbe), Deeper(md', st, f, cbe))
    decreases md.limit - st.count, 0, 1
  {
    CallRaised(md, md', st, f.(rdepth := f.rdepth + 1), cbe);
  }

  lemma DecodeRaised(md: Md, md': Md, pc: nat)
    requires Raised(md, md')
    ensures DecodeRepeat(md, pc) == DecodeRepeat(md', pc)
    ensures IsRepeatOp(At(md.code, pc)) ==> pc < |md.code| && pc < DecodeRepeat(md, pc).next
  {
  }

  lemma {:induction false} RunRaised(md: Md, md': Md, st: State, f: Frame)
    requires Wf(md, st, f) && Raised(md, md')
    ensures Agrees(Run(md, st, f), Run(md', st, f))
    decreases md.limit - st.count, 1, |md.code| - f.pc, 2
  {
    hide Call, Deeper, RunRepeat, RunBra, RunKet, DecodeRepeat, SkipAlts, Get;
    var pc := f.pc;
    var op := At(md.code, pc);
    DecodeRaised(md, md', pc);
    if op in {OP_SOD, OP_EODN, OP_EOD, OP_CIRC, OP_DOLL} {
      if ZeroOk(md.c, op, f.eptr) { RunRaised(md, md', st, f.(pc := pc + 1)); }
    } else if IsRepeatOp(op) {
      RepeatRaised(md, md', st, f, DecodeRepeat(md, pc));
    } else if op == OP_CBRA || op == OP_SCBRA || op == OP_BRA || op == OP_SBRA {
      BraRaised(md, md', st, f);
    } else if op == OP_ALT {
      if SkipAlts(md.code, pc) != pc { RunRaised(md, md', st, f.(pc := SkipAlts(md.code, pc))); }
    } else if op == OP_BRAZERO {
      EitherRaised(md, md', st, f.(pc := pc + 1), f.(pc := SkipAlts(md.code, pc + 1) + 3), pc);
    } else if op == OP_BRAMINZERO {
      EitherRaised(md, md', st, f.(pc := SkipAlts(md.code, pc + 1) + 3), f.(pc := pc + 1), pc);
    } else if op == OP_SKIPZERO {
      RunRaised(md, md', st, f.(pc := SkipAlts(md.code, pc + 1) + 3));
    } else if OP_KET <= op <= OP_KETRMIN {
      KetRaised(md, md', st, f);
    }
  }

  /** One way on, and if it fails another. */
  lemma {:induction false} EitherRaised(md: Md, md': Md, st: State, first: Frame, second: Frame, pc: nat)
    requires Wf(md, st, first) && Wf(md, st, second) && Raised(md, md') && pc < |md.code| && pc < second.pc
    ensures var o, o' := Deeper(md, st, first, false), Deeper(md', st, first, false);
      Agrees(if o.rc != NOMATCH then o else Run(md, o.st, second),
             if o'.rc != NOMATCH then o' else Run(md', o'.st, second))
    decreases md.limit - st.count, 1, |md.code| - pc, 1
  {
    hide Run, Call, Deeper;
    DeeperRaised(md, md', st, first, false);
    var o := Deeper(md, st, first, false);
    if o.rc == NOMATCH { RunRaised(md, md', o.st, second); }
  }

  lemma {:induction false} RepeatRaised(md: Md, md': Md, st: State, f: Frame, d: Repeat)
    requires Wf(md, st, f) && Raised(md, md') && f.pc < |md.code| && f.pc < d.next
    ensures Agrees(RunRepeat(md, st, f, d), RunRepeat(md', st, f, d))
    decreases md.limit - st.count, 1, |md.code| - f.pc, 1
  {
    hide Run, Lazily, WalkBack, Longest;
    if MinOk(md.c, d.x, f.eptr, d.min) {
      var first := f.eptr + d.min;
      var g := f.(eptr := first, pc := d.next);
      var last := Longest(md.c, d.x, first, if d.max < 0 then -1 else if d.max < d.min then 0 else d.max - d.min);
      RunRaised(md, md', st, g);
      RunRaised(md, md', st, g.(eptr := last));
      LazilyRaised(md, md', st, g, d, d.min);
      WalkRaised(md, md', st, g.(eptr := last), first);
    }
  }

  lemma {:induction false} LazilyRaised(md: Md, md': Md, st: State, f: Frame, d: Repeat, fi: nat)
    requires Wf(md, st, f) && Raised(md, md')
    ensures Agrees(Lazily(md, st, f, d, fi), Lazily(md', st, f, d, fi))
    decreases md.limit - st.count, 1, |md.code| - f.pc, 3, |md.c.s| - f.eptr
  {
    hide Run, Call, Deeper;
    DeeperRaised(md, md', st, f, false);
    var o := Deeper(md, st, f, false);
    if o.rc == NOMATCH && AcceptsAt(md.c, d.x, f.eptr) {
      LazilyRaised(md, md', o.st, f.(eptr := f.eptr + 1), d, fi + 1);
    }
  }

  lemma {:induction false} WalkRaised(md: Md, md': Md, st: State, f: Frame, pp: nat)
    requires Wf(md, st, f) && Raised(md, md')
    ensures Agrees(WalkBack(md, st, f, pp), WalkBack(md', st, f, pp))
    decreases md.limit - st.count, 1, |md.code| - f.pc, 3, f.eptr
  {
    hide Run, Call, Deeper;
    DeeperRaised(md, md', st, f, false);
    var o := Deeper(md, st, f, false);
    if o.rc == NOMATCH && pp <= f.eptr && f.eptr > 0 { WalkRaised(md, md', o.st, f.(eptr := f.eptr - 1), pp); }
  }

  lemma {:induction false} BraRaised(md: Md, md': Md, st: State, f: Frame)
    requires Wf(md, st, f) && Raised(md, md') && f.pc < |md.code|
    ensures Agrees(RunBra(md, st, f), RunBra(md', st, f))
    decreases md.limit - st.count, 1, |md.code| - f.pc, 1
  {
    hide Run, Call, Deeper, CapAlts, BraAlts;
    var op, n := md.code[f.pc], Get(md.code, f.pc + 3);
    if (op == OP_CBRA || op == OP_SCBRA) && 0 < 2 * n < md.OffsetMax() {
      CapRaised(md, md', st.(vec := st.vec[md.offsetEnd - n := f.eptr]), f, op >= OP_SBRA);
    } else {
      AltsRaised(md, md', st, f, op >= OP_SBRA);
    }
  }

  lemma {:induction false} CapRaised(md: Md, md': Md, st: State, f: Frame, cbe: bool)
    requires Wf(md, st, f) && Raised(md, md')
    ensures Agrees(CapAlts(md, st, f, cbe), CapAlts(md', st, f, cbe))
    decreases md.limit - st.count, 1, |md.code| - f.pc, 0
  {
    hide Run, Call, Deeper;
    var g := f.(pc := f.pc + OpenLen(At(md.code, f.pc)));
    DeeperRaised(md, md', st, g, cbe);
    var o, next := Deeper(md, st, g, cbe), f.pc + Get(md.code, f.pc + 1);
    if o.rc == NOMATCH && f.pc < next && At(md.code, next) == OP_ALT {
      CapRaised(md, md', o.st, f.(pc := next), cbe);
    }
  }

  lemma {:induction false} AltsRaised(md: Md, md': Md, st: State, f: Frame, cbe: bool)
    requires Wf(md, st, f) && Raised(md, md')
    ensures Agrees(BraAlts(md, st, f, cbe), BraAlts(md', st, f, cbe))
    decreases md.limit - st.count, 1, |md.code| - f.pc, 0
  {
    hide Run, Call, Deeper;
    var g, next := f.(pc := f.pc + OpenLen(At(md.code, f.pc))), f.pc + Get(md.code, f.pc + 1);
    CallRaised(md, md', st, g, false);
    DeeperRaised(md, md', st, g, cbe);
    var o := Deeper(md, st, g, cbe);
    if o.rc == NOMATCH && At(md.code, next) == OP_ALT && next != f.pc {
      AltsRaised(md, md', o.st, f.(pc := next), cbe);
    }
  }

  lemma {:induction false} KetRaised(md: Md, md': Md, st: State, f: Frame)
    requires Wf(md, st, f) && Raised(md, md') && f.pc < |md.code|
    ensures Agrees(RunKet(md, st, f), RunKet(md', st, f))
    decreases md.limit - st.count, 1, |md.code| - f.pc, 1
  {
    hide AfterClose, Get;
    var prev: int := f.pc - Get(md.code, f.pc + 1);
    var bra := At(md.code, prev);
    var s, cap := bra == OP_SBRA || bra == OP_SCBRA, bra == OP_CBRA || bra == OP_SCBRA;
    if !(prev < 0 || !(s || cap || bra == OP_BRA) || (s && f.chain == [])) {
      var n := Get(md.code, prev + 3);
      CloseRaised(md, md', if cap then KetState(md, st, n, f.eptr) else st,
                  f.(chain := if s then f.chain[1..] else f.chain,
                     top := if cap then KetTop(md, f.top, n) else f.top),
                  prev, s, s && f.eptr == f.chain[0]);
    }
  }

  lemma {:induction false} CloseRaised(md: Md, md': Md, st: State, f: Frame, prev: nat, s: bool, empty: bool)
    requires Wf(md, st, f) && Raised(md, md') && f.pc < |md.code|
    ensures Agrees(AfterClose(md, st, f, prev, s, empty), AfterClose(md', st, f, prev, s, empty))
    decreases md.limit - st.count, 1, |md.code| - f.pc, 0
  {
    hide Run, Call, Deeper;
    var after, again := f.(pc := f.pc + 3), f.(pc := prev);
    if md.code[f.pc] == OP_KET || empty {
      RunRaised(md, md', st, after);
    } else if md.code[f.pc] == OP_KETRMIN {
      DeeperRaised(md, md', st, after, false);
      var o := Deeper(md, st, after, false);
      if o.rc == NOMATCH {
        if s { DeeperRaised(md, md', o.st, again, true); } else { CallRaised(md, md', o.st, again, false); }
      }
    } else {
      DeeperRaised(md, md', st, again, s);
      var o := Deeper(md, st, again, s);
      if o.rc == NOMATCH { CallRaised(md, md', o.st, after, false); }
    }
  }
}
