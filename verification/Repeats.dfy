/** Repeated single items: what their opcodes decode to, and the scan-and-walk-back
    form of their result lists. */
module Repeats {
  import opened Bytes
  import opened Code
  import opened Layout
  import opened Semantics
  import opened Machine

  // ---------- decoding ----------

  predicate IsClassRepeatOp(op: Byte) { OP_CRSTAR <= op <= OP_CRMINRANGE }

  lemma EncRepLen(x: Single, k: Kind)
    requires x.Class? ==> |x.bits| == 32
    ensures |EncRep(x, k)| == |KindCount(k)| + (if x.Class? then 34 else 2)
  {
  }

  function Family(x: Single): nat { if x.Lit? then 0 else if x.NotLit? then 1 else 2 }

  function Arg(x: Single): Byte
    requires !x.Class?
  {
    if x.Type? then x.op else x.c
  }

  /** Where the parts of a repeat item of the three families lie. */
  lemma FamilyParts(code: seq<Byte>, pc: nat, x: Single, k: Kind)
    requires !x.Class? && Has(code, pc, EncRep(x, k))
    ensures At(code, pc) == OP_STAR + 13 * Family(x) + KindOffset(k)
    ensures Has(code, pc + 1, KindCount(k)) && At(code, pc + 1 + |KindCount(k)|) == Arg(x)
  {
    var op, n := OP_STAR + 13 * Family(x) + KindOffset(k), KindCount(k);
    assert EncRep(x, k) == [op] + n + [Arg(x)];
    HasSplit3(code, pc, [op], n, [Arg(x)]);
    HasAt(code, pc, [op], 0);
    HasAt(code, pc + 1 + |n|, [Arg(x)], 0);
  }

  lemma FamilyOp(op: Byte, fam: nat, off: Byte)
    requires op == OP_STAR + 13 * fam + off && off < 13
    ensures (op as int - OP_STAR as int) / 13 == fam && (op as int - OP_STAR as int) % 13 == off
  {
  }

  /** A repeat item of the three families. */
  lemma DecodeFamily(md: Md, pc: nat, x: Single, k: Kind)
    requires ValidSingle(x, md.c.nocase) && ValidKind(x, k) && !x.Class?
    requires Has(md.code, pc, EncRep(x, k))
    ensures OP_STAR <= At(md.code, pc) < OP_CRSTAR
    ensures FamilyRepeat(md, pc) ==
      Repeat(x, k.Min(), k.Max(), k.M() == Lazy, k.M() == Possessive, pc + |EncRep(x, k)|)
  {
    FamilyParts(md.code, pc, x, k);
    FamilyOp(At(md.code, pc), Family(x), KindOffset(k));
    EncRepLen(x, k);
    assert FamilyItem(md, Family(x), Arg(x)) == x;
    if k.Upto? || k.Exact? { HasLink(md.code, pc + 1, k.n); }
  }

  lemma ClassBits(code: seq<Byte>, pc: nat, x: Single)
    requires x.Class? && |x.bits| == 32 && Has(code, pc, EncOne(x))
    ensures pc + 33 <= |code| && code[pc] in {OP_CLASS, OP_NCLASS}
    ensures Class(code[pc] == OP_NCLASS, code[pc + 1..pc + 33]) == x
  {
    HasAt(code, pc, EncOne(x), 0);
    HasSplit(code, pc, [if x.neg then OP_NCLASS else OP_CLASS], x.bits);
  }

  lemma DecodeClass(md: Md, pc: nat, x: Single, k: Kind)
    requires ValidSingle(x, md.c.nocase) && ValidKind(x, k) && x.Class?
    requires Has(md.code, pc, EncRep(x, k))
    ensures pc + 33 <= |md.code| && md.code[pc] in {OP_CLASS, OP_NCLASS}
    ensures ClassRepeat(md.code, pc) == Repeat(x, k.Min(), k.Max(), k.M() == Lazy, false, pc + |EncRep(x, k)|)
  {
    var n, op := KindCount(k), OP_CRSTAR + KindOffset(k);
    HasSplit3(md.code, pc, EncOne(x), [op], n);
    ClassBits(md.code, pc, x);
    HasAt(md.code, pc + 33, [op], 0);
    if k.Range? {
      HasSplit(md.code, pc + 34, Link(k.min), Link(if k.max < 0 then 0 else k.max));
      HasLink(md.code, pc + 34, k.min);
      HasLink(md.code, pc + 36, if k.max < 0 then 0 else k.max);
    }
  }

  lemma DecodeRep(md: Md, pc: nat, x: Single, k: Kind)
    requires ValidSingle(x, md.c.nocase) && ValidKind(x, k) && Has(md.code, pc, EncRep(x, k))
    ensures IsRepeatOp(At(md.code, pc)) && pc < |md.code|
    ensures DecodeRepeat(md, pc) ==
      Repeat(x, k.Min(), k.Max(), k.M() == Lazy, k.M() == Possessive, pc + |EncRep(x, k)|)
  {
    if x.Class? { DecodeClass(md, pc, x, k); } else { DecodeFamily(md, pc, x, k); }
  }

  lemma DecodeOne(md: Md, pc: nat, x: Single)
    requires ValidSingle(x, md.c.nocase) && Has(md.code, pc, EncOne(x))
    requires !IsClassRepeatOp(At(md.code, pc + |EncOne(x)|))
    ensures IsRepeatOp(At(md.code, pc)) && pc < |md.code|
    ensures DecodeRepeat(md, pc) == Repeat(x, 1, 1, false, false, pc + |EncOne(x)|)
  {
    HasAt(md.code, pc, EncOne(x), 0);
    if x.Class? {
      ClassBits(md.code, pc, x);
    } else if !x.Type? {
      HasAt(md.code, pc, EncOne(x), 1);
    }
  }

  // ---------- result lists ----------

  /** hi, hi - 1, ..., lo. */
  function Down(hi: int, lo: nat): (out: seq<nat>)
    ensures forall i :: 0 <= i < |out| ==> lo <= out[i] <= hi
    decreases hi - lo + 1
  {
    if hi < lo then [] else [hi] + Down(hi - 1, lo)
  }

  lemma {:induction false} DownEnd(hi: nat, lo: nat)
    requires lo <= hi
    ensures Down(hi, lo) == Down(hi, lo + 1) + [lo]
    decreases hi - lo
  {
    if hi > lo { DownEnd(hi - 1, lo); }
  }

  /** First the minimum, then the rest. */
  lemma {:induction false} RunsMin(c: Ctx, x: Single, min: nat, max: int, lazy: bool, pos: nat)
    requires pos <= |c.s| && (max < 0 || min <= max)
    ensures Runs(c, x, min, max, lazy, pos) ==
      if MinOk(c, x, pos, min) then Runs(c, x, 0, if max < 0 then max else max - min, lazy, pos + min) else []
    decreases min
  {
    hide Accepts;
    if min == 0 {
      assert MinOk(c, x, pos, 0);
    } else {
      hide Runs, MinOk;
      var m := if max < 0 then max else max - 1;
      RunsTake(c, x, min, max, lazy, pos);
      MinTake(c, x, pos, min);
      if AcceptsAt(c, x, pos) { RunsMin(c, x, min - 1, m, lazy, pos + 1); }
    }
  }

  lemma RunsTake(c: Ctx, x: Single, min: nat, max: int, lazy: bool, pos: nat)
    requires pos <= |c.s| && 0 < min && (max < 0 || min <= max)
    ensures Runs(c, x, min, max, lazy, pos) ==
      if AcceptsAt(c, x, pos) then Runs(c, x, min - 1, if max < 0 then max else max - 1, lazy, pos + 1) else []
  {
    hide Accepts;
  }

  lemma MinTake(c: Ctx, x: Single, pos: nat, min: nat)
    requires pos <= |c.s| && 0 < min
    ensures MinOk(c, x, pos, min) <==> AcceptsAt(c, x, pos) && MinOk(c, x, pos + 1, min - 1)
  {
    hide Accepts;
  }

  /** A greedy repeat: the longest run, then back one byte at a time. */
  lemma {:induction false} RunsDown(c: Ctx, x: Single, max: int, pos: nat)
    requires pos <= |c.s|
    ensures Runs(c, x, 0, max, false, pos) == Down(Longest(c, x, pos, max), pos)
    decreases |c.s| - pos
  {
    if max != 0 && AcceptsAt(c, x, pos) {
      RunsDown(c, x, if max < 0 then max else max - 1, pos + 1);
      DownEnd(Longest(c, x, pos, max), pos);
    }
  }

  /** Every end within the bounds, with accepted bytes before it, is one of the runs. */
  lemma {:induction false} RunsReach(c: Ctx, x: Single, min: nat, max: int, lazy: bool, p: nat, q: nat)
    requires p <= q <= |c.s| && (forall j :: p <= j < q ==> Accepts(x, c.s[j])) && min <= q - p && (max < 0 || q - p <= max)
    ensures q in Runs(c, x, min, max, lazy, p)
    decreases q - p
  {
    var min', max' := if min > 0 then min - 1 else 0, if max < 0 then max else max - 1;
    if q > p {
      assert AcceptsAt(c, x, p);
      hide Accepts;
      RunsReach(c, x, min', max', lazy, p + 1, q);
      var more := Runs(c, x, min', max', lazy, p + 1);
      assert Runs(c, x, min, max, lazy, p) == if min > 0 then more else if lazy then [p] + more else more + [p];
    }
  }
}
