/** The real pass: compile_regex and compile_branch writing bytecode into an array. */
module Emit {
  import opened Bytes
  import opened Code
  import opened Layout
  import opened Pattern
  import opened Lowering
  import opened Emptiness
  import opened PreCompile
  import opened Repeats
  import opened Scan
  import opened Chains
  import opened Nesting

  // ---------- the compiler ----------

  class Compiler {
    const code: array<Byte>
    const nocase: bool
    var bracount: nat

    constructor (nocase: bool, length: nat)
      requires length <= MAX_PATTERN_SIZE
      ensures fresh(code) && code.Length == length && this.nocase == nocase && bracount == 0
    {
      this.nocase, bracount, code := nocase, 0, new Byte[length];
    }

    /** PUT and PUT2. */
    method Put(at: nat, n: nat)
      requires at + 2 <= code.Length
      modifies code
      ensures code[..] == old(code[..])[at := Link(n)[0]][at + 1 := Link(n)[1]]
      ensures Has(code[..], at, Link(n)) && (n < 0x1_0000 ==> Get(code[..], at) == n)
    {
      code[at] := (n / 256) % 256;
      code[at + 1] := n % 256;
      assert code[..][at..at + 2] == [code[at], code[at + 1]];
    }

    /** Write the bytes e behind what is done. */
    method Append(at: nat, e: seq<Byte>, ghost start: nat, ghost done: seq<Byte>) returns (end: nat)
      requires Written(code[..], start, done, at) && at + |e| <= code.Length
      modifies code
      ensures Written(code[..], start, done + e, end) && end == at + |e| && code[..at] == old(code[..at])
    {
      for i := 0 to |e|
        invariant code[..at] == old(code[..at]) && code[at..at + i] == e[..i]
      {
        code[at + i] := e[i];
      }
      assert code[..][at..at + |e|] == e;
      HasFrame(old(code[..]), code[..], start, done, at);
      HasJoin(code[..], start, done, e);
      return at + |e|;
    }

    // ---------- brackets ----------

    /** compile_regex, for the bracket i at `at` whose head the caller has begun. While
        it is open, links lead back from each ALT to the one before. */
    method CompileRegex(i: Item, at: nat, skip: nat, ghost cap: nat) returns (end: nat)
      requires i.Paren? && ValidItem(i, nocase) && code.Length <= MAX_PATTERN_SIZE
      requires bracount + Count(i.b) + CountMore(i.more) < 0x1_0000
      requires HeadWritten(code[..], at, cap) && skip == (if cap == 0 then 0 else 2)
      requires at + 6 + skip + PreBranch(i.b, nocase) + PreMore(i.more, nocase) <= code.Length
      modifies code, this`bracount
      ensures code[..at] == old(code[..at]) && bracount == old(bracount) + Count(i.b) + CountMore(i.more)
      ensures Written(code[..], at, EncGroup(Group(cap, false, LowerBranch(i.b, old(bracount), nocase),
                LowerMore(i.more, old(bracount) + Count(i.b), nocase), Ket)), end)
      decreases i, 0
    {
      hide Has, EncNodes, EncGroup, Get, LowerBranch, LowerMore, PreBranch, PreMore, Opened, Filled, HeadWritten, AltsOf, CountMore, ValidMore;
      ghost var all := Alt(LowerBranch(i.b, bracount, nocase), LowerMore(i.more, bracount + Count(i.b), nocase));
      ghost var before := code[..];
      Put(at + 1, 0);
      HeadKept(before, code[..], at, cap);
      var lastBranch: nat, cur: nat := at, at + 3 + skip;
      var br, rest := i.b, i.more;
      ghost var opens: seq<nat>, ps: seq<Nodes> := [], [];
      OpenFirst(code[..], at, skip, all);
      while true
        invariant ValidBranch(br, nocase) && ValidMore(rest, nocase)
        invariant br < i && (rest == i.more || rest < i.more)
        invariant Opened(code[..], at, skip, opens, ps, lastBranch) && cur == lastBranch + OpenerLen(|opens|, skip)
        invariant cur + PreBranch(br, nocase) + PreMore(rest, nocase) + 3 <= code.Length && at + 3 + skip <= cur
        invariant HeadWritten(code[..], at, cap) && code[..at] == old(code[..at])
        invariant bracount + Count(br) + CountMore(rest) == old(bracount) + Count(i.b) + CountMore(i.more)
        invariant all == AltsOf(ps, Alt(LowerBranch(br, bracount, nocase), LowerMore(rest, bracount + Count(br), nocase)))
        decreases rest
      {
        ghost var p := LowerBranch(br, bracount, nocase);
        cur := FillBranch(br, lastBranch, cur, at, skip, opens, ps, cap);
        AltsSnoc(ps, p, LowerMore(rest, bracount, nocase));
        opens, ps := opens + [lastBranch], ps + [p];
        if rest.NoMore? { break; }
        MoreStep(rest, bracount, nocase);
        OpenAlt(lastBranch, cur, at, skip, opens, ps, cap);
        lastBranch := cur;
        cur := cur + 3;
        br, rest := rest.b, rest.more;
      }
      end := CloseBracket(at, lastBranch, cur, opens, ps, skip, cap);
      AllBranches(ps, all, bracount, nocase);
    }

    /** One branch of an open bracket. */
    method FillBranch(br: Branch, last: nat, cur: nat, at: nat, skip: nat, ghost opens: seq<nat>, ghost ps: seq<Nodes>, ghost cap: nat)
      returns (next: nat)
      requires ValidBranch(br, nocase) && code.Length <= MAX_PATTERN_SIZE && cur + PreBranch(br, nocase) <= code.Length
      requires bracount + Count(br) < 0x1_0000
      requires Opened(code[..], at, skip, opens, ps, last) && cur == last + OpenerLen(|opens|, skip)
      requires HeadWritten(code[..], at, cap) && at + 3 + skip <= cur && skip == (if cap == 0 then 0 else 2)
      modifies code, this`bracount
      ensures Filled(code[..], at, skip, opens + [last], ps + [LowerBranch(br, old(bracount), nocase)], next)
      ensures HeadWritten(code[..], at, cap) && code[..at] == old(code[..at])
      ensures cur <= next <= cur + PreBranch(br, nocase) && bracount == old(bracount) + Count(br)
      decreases br, 2
    {
      hide Has, EncNodes, EncGroup, Get, LowerBranch, PreBranch, Opened, Filled, HeadWritten;
      next := CompileBranch(br, cur);
      FillOpen(old(code[..]), code[..], at, skip, opens, ps, last, LowerBranch(br, old(bracount), nocase), next);
      HeadKept(old(code[..]), code[..], at, cap);
    }

    /** An ALT, whose link leads back to the branch before. */
    method OpenAlt(last: nat, cur: nat, at: nat, skip: nat, ghost opens: seq<nat>, ghost ps: seq<Nodes>, ghost cap: nat)
      requires Filled(code[..], at, skip, opens, ps, cur) && last == opens[|opens| - 1]
      requires HeadWritten(code[..], at, cap) && skip == (if cap == 0 then 0 else 2)
      requires at + 3 + skip <= cur && cur + 3 <= code.Length <= MAX_PATTERN_SIZE
      modifies code
      ensures Opened(code[..], at, skip, opens, ps, cur) && HeadWritten(code[..], at, cap) && code[..at] == old(code[..at])
    {
      hide Has, EncNodes, Get, Chain, HeadWritten;
      code[cur] := OP_ALT;
      Put(cur + 1, cur - last);
      hide Opened, Filled;
      OpenNext(old(code[..]), code[..], at, skip, opens, ps, cur);
      HeadKept(old(code[..]), code[..], at, cap);
    }

    /** Turn the links round, and write the ket. */
    method CloseBracket(at: nat, last: nat, cur: nat, ghost opens: seq<nat>, ghost ps: seq<Nodes>, ghost skip: nat, ghost cap: nat)
      returns (end: nat)
      requires Filled(code[..], at, skip, opens, ps, cur) && last == opens[|opens| - 1]
      requires HeadWritten(code[..], at, cap) && skip == (if cap == 0 then 0 else 2)
      requires at + 3 + skip <= cur && cur + 3 <= code.Length <= MAX_PATTERN_SIZE
      modifies code
      ensures code[..at] == old(code[..at])
      ensures ps != [] && Written(code[..], at, EncGroup(Group(cap, false, ps[0], AltsOf(ps[1..], NoAlt), Ket)), end)
    {
      hide Has, EncNodes, EncGroup, Get, Chain, Link;
      ReverseLinks(last, cur, opens, ps, skip);
      ghost var before := code[..];
      HeadKept(old(code[..]), before, at, cap);
      code[cur] := OP_KET;
      HasByte(code[..], cur, OP_KET);
      ghost var ket := code[..];
      Put(cur + 1, cur - at);
      HasFrame(ket, code[..], cur, [OP_KET], cur + 1);
      ChainFrame(before, code[..], opens, ps, skip, cur, 0);
      HeadKept(before, code[..], at, cap);
      ChainGroup(code[..], opens, ps, cap, cur);
      ChainLen(code[..], opens, ps, cap, cur);
      assert before[..at] == old(code[..at]);
      assert code[..at] == before[..at];
      end := cur + 1 + LINK_SIZE;
    }

    /** Go back through the branches and turn each link round. */
    method ReverseLinks(last: nat, end: nat, ghost opens: seq<nat>, ghost ps: seq<Nodes>, ghost skip: nat)
      requires Chain(code[..], opens, ps, skip, end, |opens|) && opens != [] && last == opens[|opens| - 1]
      requires last < end < 0x1_0000 && end <= code.Length
      modifies code
      ensures Chain(code[..], opens, ps, skip, end, 0)
      ensures forall k :: 0 <= k < code.Length && !(opens[0] < k < opens[0] + 3) && !(opens[0] + 3 + skip <= k < end) ==>
        code[k] == old(code[k])
    {
      hide Has, EncNodes, Link;
      var lastBranch: nat, branchLength: nat := last, end - last;
      ghost var j := |opens| - 1;
      assert BranchLies(code[..], opens, ps, skip, end, |opens|, j);
      while true
        invariant 0 <= j < |opens| && Chain(code[..], opens, ps, skip, end, j + 1) && lastBranch == opens[j]
        invariant branchLength == NextOpener(opens, j, end) - opens[j] && lastBranch + 3 <= code.Length
        invariant forall k :: 0 <= k < code.Length && !(opens[0] < k < opens[0] + 3) && !(opens[0] + 3 + skip <= k < end) ==>
          code[k] == old(code[k])
        decreases j
      {
        assert BranchLies(code[..], opens, ps, skip, end, j + 1, j);
        var prevLength := Get(code[..], lastBranch + 1);
        ghost var before := code[..];
        Put(lastBranch + 1, branchLength);
        ChainFlip(before, code[..], opens, ps, skip, end, j);
        if j > 0 {
          OpensOrder(code[..], opens, ps, skip, end, j, 0, j);
          OpensOrder(code[..], opens, ps, skip, end, j, j - 1, j);
        }
        branchLength := prevLength;
        lastBranch := lastBranch - branchLength;
        if branchLength == 0 { break; }
        assert BranchLies(code[..], opens, ps, skip, end, j, j - 1);
        j := j - 1;
      }
    }

    method CompileBranch(b0: Branch, at: nat) returns (end: nat)
      requires ValidBranch(b0, nocase) && at + PreBranch(b0, nocase) <= code.Length <= MAX_PATTERN_SIZE
      requires bracount + Count(b0) < 0x1_0000
      modifies code, this`bracount
      ensures code[..at] == old(code[..at]) && bracount == old(bracount) + Count(b0)
      ensures Written(code[..], at, EncNodes(LowerBranch(b0, old(bracount), nocase)), end)
      ensures end <= at + PreBranch(b0, nocase)
      decreases b0, 1
    {
      hide Has, EncNodes, LowerBranch, PreBranch, ItemBytes, PreItem, Written, ValidItem;
      var b, cur: nat := b0, at;
      ghost var done: seq<Byte> := [];
      WrittenNothing(code[..], at);
      while b.Then?
        invariant ValidBranch(b, nocase) && (b == b0 || b < b0)
        invariant Written(code[..], at, done, cur) && code[..at] == old(code[..at])
        invariant done + EncNodes(LowerBranch(b, bracount, nocase)) == EncNodes(LowerBranch(b0, old(bracount), nocase))
        invariant bracount + Count(b) == old(bracount) + Count(b0)
        invariant cur + PreBranch(b, nocase) <= at + PreBranch(b0, nocase)
        decreases b
      {
        ghost var before, e := code[..], ItemBytes(b, bracount, nocase);
        BranchStep(b, bracount, nocase);
        WrittenEnd(before, at, done, cur);
        var next := CompileItem(b, cur);
        WrittenMore(before, code[..], at, done, cur, e, next);
        assert before[..cur][..at] == code[..cur][..at];
        done, cur, b := done + e, next, b.rest;
      }
      BranchStop(b, bracount, nocase);
      assert done + [] == done;
      end := cur;
    }

    /** The first item of b. */
    method CompileItem(b: Branch, at: nat) returns (end: nat)
      requires ValidBranch(b, nocase) && b.Then? && at + PreItem(b, nocase) <= code.Length <= MAX_PATTERN_SIZE
      requires bracount + CountItem(b.i) < 0x1_0000
      modifies code, this`bracount
      ensures code[..at] == old(code[..at]) && bracount == old(bracount) + CountItem(b.i)
      ensures Written(code[..], at, ItemBytes(b, old(bracount), nocase), end)
      decreases b, 0
    {
      match b.i {
        case Assertion(op) =>
          WrittenNothing(code[..], at);
          end := Append(at, [op], at, []);
        case Atom(x, q) =>
          end := CompileAtom(x, q, b.rest, at);
        case Paren(_, _, _, _) =>
          end := CompileParen(b.i, at);
      }
    }

    // ---------- atoms ----------

    method CompileAtom(x: Single, q: Quant, next: Branch, at: nat) returns (end: nat)
      requires ValidSingle(x, nocase) && ValidQuant(q)
      requires at + PreAtom(x, q, next) <= code.Length
      modifies code
      ensures code[..at] == old(code[..at]) && Written(code[..], at, AtomBytes(x, Possess(x, q, next)), end)
    {
      hide Has, EncNodes, AtomNodes, EncOne, Written, AtomBytes;
      WrittenNothing(code[..], at);
      end := Append(at, EncOne(x), at, []);
      assert [] + EncOne(x) == EncOne(x);
      OneBytes(x);
      if q.NoQ? { return; }
      var mode := q.mode;
      if !x.Class? && q.max < 0 && mode != Possessive && AutoPossess(x, next) { mode := Possessive; }
      if x.Class? { NoClassPossess(x, next); }
      var possessive, plain := mode == Possessive, if mode == Possessive then Greedy else mode;
      PlainFits(x, q.min, q.max, mode);
      if x.Class? {
        end := RepeatClass(at, end, q.min, q.max, plain, x);
      } else {
        end := RepeatSingle(at, end, q.min, q.max, plain, x);
      }
      var ended := q.max == 0 || (!x.Class? && q.min == 1 && q.max == 1);
      AtomPossessive(x, q.min, q.max, nocase);
      if possessive && !ended { end := Possessify(at, end, RepeatBytes(x, Q(q.min, q.max, Greedy))); }
    }

    /** A class keeps its place; its repeat goes behind it. */
    method RepeatClass(at: nat, itemEnd: nat, min: nat, max: int, mode: Mode, ghost x: Single) returns (end: nat)
      requires x.Class? && ValidSingle(x, nocase) && ValidQuant(Q(min, max, mode)) && mode != Possessive
      requires Written(code[..], at, EncOne(x), itemEnd) && at + |RepeatBytes(x, Q(min, max, mode))| <= code.Length
      modifies code
      ensures code[..at] == old(code[..at]) && Written(code[..], at, RepeatBytes(x, Q(min, max, mode)), end)
    {
      hide Has, EncNodes, RepeatNodes, EncOne, RepeatBytes;
      ClassBytes(x, min, max, mode);
      if max == 0 { WrittenNothing(code[..], at); return at; }
      var repeatType := if mode == Lazy then 1 else 0;
      var suffix :=
        if min == 0 && max == -1 then [OP_CRSTAR + repeatType]
        else if min == 1 && max == -1 then [OP_CRSTAR + 2 + repeatType]
        else if min == 0 && max == 1 then [OP_CRSTAR + 4 + repeatType]
        else [OP_CRRANGE + repeatType] + Link(min) + Link(if max == -1 then 0 else max);
      SuffixIs(min, max, mode, EncOne(x), suffix);
      end := Append(itemEnd, suffix, at, EncOne(x));
      assert code[..itemEnd][..at] == code[..at];
    }

    /** A single character is abolished, and a repeat of it written in its place. */
    method RepeatSingle(at: nat, itemEnd: nat, min: nat, max: int, mode: Mode, ghost x: Single) returns (end: nat)
      requires !x.Class? && ValidSingle(x, nocase) && ValidQuant(Q(min, max, mode)) && mode != Possessive
      requires Written(code[..], at, EncOne(x), itemEnd) && at + |RepeatBytes(x, Q(min, max, mode))| <= code.Length
      modifies code
      ensures code[..at] == old(code[..at]) && Written(code[..], at, RepeatBytes(x, Q(min, max, mode)), end)
    {
      hide Has, EncNodes, RepeatNodes, RepeatBytes, SingleBytes, EncOne;
      SingleForm(x, min, max, mode);
      ItemAt(code[..], at, x, nocase);
      if max == 0 {
        NoTimes(x, min, mode);
        WrittenNothing(code[..], at);
        return at;
      }
      var op := code[at];
      var opType, c := 0, op;
      if op == OP_CHAR || op == OP_CHARNC {
        c := code[itemEnd - 1];
      } else if op == OP_NOT {
        opType, c := OP_NOTSTAR - OP_STAR, code[at + 1];
      } else {
        opType := OP_TYPESTAR - OP_STAR;
      }
      var keep, form := RepeatForm(opType, c, min, max, mode, x);
      if keep {
        end := Append(itemEnd, form, at, EncOne(x));
        assert code[..at] == code[..itemEnd][..at];
      } else {
        WrittenNothing(code[..], at);
        end := Append(at, form, at, []);
        assert [] + form == form;
      }
    }

    /** The bytes that a quantifier asks for, after the item itself if it is kept. */
    method RepeatForm(opType: nat, c: Byte, min: nat, max: int, mode: Mode, ghost x: Single)
      returns (keep: bool, form: seq<Byte>)
      requires !x.Class? && ValidQuant(Q(min, max, mode)) && max != 0 && mode != Possessive
      requires opType == 13 * Family(x) && c == Arg(x)
      ensures SingleBytes(x, min, max, mode) == if keep then EncOne(x) + form else form
    {
      hide EncOne, Link;
      var op := OP_STAR + opType + if mode == Lazy then 1 else 0;
      keep := false;
      if min == 0 {
        form := (if max == -1 then [op] else if max == 1 then [op + 4] else [op + 6] + Link(max)) + [c];
      } else if min == 1 {
        if max == -1 {
          form := [op + 2, c];
        } else if max == 1 {
          keep, form := true, [];
        } else {
          keep, form := true, [op + 6] + Link(max - 1) + [c];
        }
      } else {
        form := [OP_STAR + opType + 8] + Link(min) + [c];
        if max < 0 {
          form := form + [op, c];
        } else if max == min + 1 {
          form := form + [op + 4, c];
        } else if max != min {
          form := form + ([op + 6] + Link(max - min) + [c]);
        }
      }
    }

    /** The possessive form of what a greedy quantifier left at `at`: another opcode, or
        an atomic bracket around it. An exact minimum is left as it is. */
    method Possessify(at: nat, end0: nat, ghost e: seq<Byte>) returns (end: nat)
      requires Written(code[..], at, e, end0) && e != [] && at + |MadePossessive(e)| <= code.Length
      modifies code
      ensures code[..at] == old(code[..at]) && Written(code[..], at, MadePossessive(e), end)
    {
      hide Has, OnceBytes;
      HasAt(code[..], at, e, 0);
      WrittenEnd(code[..], at, e, end0);
      var tempcode := at;
      if IsExact(code[at]) { tempcode := tempcode + 4; }
      end := end0;
      if end > tempcode {
        HasAt(code[..], at, e, tempcode - at);
        if HasPossessive(code[tempcode]) {
          ghost var before := code[..];
          code[tempcode] := PossessiveOp(code[tempcode]);
          OneChanged(before, code[..], at, e, tempcode);
        } else {
          ghost var before, k := code[..], tempcode - at;
          assert e == e[..k] + e[k..];
          HasSplit(before, at, e[..k], e[k..]);
          end := Wrap(tempcode, end0, e[k..]);
          WrittenMore(before, code[..], at, e[..k], tempcode, OnceBytes(e[k..]), end);
          assert before[..tempcode][..at] == code[..tempcode][..at];
        }
      }
    }

    /** Move the bytes at `from` up, and put an atomic bracket around them. */
    method Wrap(from: nat, end0: nat, ghost e: seq<Byte>) returns (end: nat)
      requires Written(code[..], from, e, end0) && from + |e| + 6 <= code.Length
      modifies code
      ensures code[..from] == old(code[..from]) && Written(code[..], from, OnceBytes(e), end)
    {
      hide Has, Link, OnceBytes, Get, At;
      WrittenEnd(code[..], from, e, end0);
      HasIs(code[..], from, e);
      var len: nat := end0 - from;
      MoveUp(from, len, 1 + LINK_SIZE);
      IsHas(code[..], from + 3, e);
      end := end0 + 1 + LINK_SIZE;
      len := len + 1 + LINK_SIZE;
      Enclose(from, end, len, e);
      end := end + 1 + LINK_SIZE;
    }

    /** The opening and the closing of an atomic bracket. */
    method Enclose(from: nat, end: nat, len: nat, ghost e: seq<Byte>)
      requires Has(code[..], from + 3, e) && len == 3 + |e| && end == from + len && end + 3 <= code.Length
      modifies code
      ensures code[..from] == old(code[..from]) && Has(code[..], from, OnceBytes(e))
    {
      hide Has, Link, OnceBytes, Get, At;
      ghost var moved := code[..];
      code[end] := OP_KET;
      HasByte(code[..], end, OP_KET);
      HasFrame(moved, code[..], from + 3, e, end);
      ghost var marked := code[..];
      Put(end + 1, len);
      HasFrame(marked, code[..], from + 3, e, end + 1);
      HasFrame(marked, code[..], end, [OP_KET], end + 1);
      ghost var closed := code[..];
      code[from] := OP_ONCE;
      Put(from + 1, len);
      HasByte(code[..], from, OP_ONCE);
      HasBehind(closed, code[..], from + 3, e);
      HasBehind(closed, code[..], end, [OP_KET]);
      HasBehind(closed, code[..], end + 1, Link(len));
      OnceJoined(code[..], from, e);
    }

    // ---------- groups ----------

    method CompileParen(i: Item, at: nat) returns (end: nat)
      requires i.Paren? && ValidItem(i, nocase) && bracount + CountItem(i) < 0x1_0000
      requires at + PreRepeat(PreGroup(i, nocase), i.q) <= code.Length <= MAX_PATTERN_SIZE
      modifies code, this`bracount
      ensures code[..at] == old(code[..at]) && bracount == old(bracount) + CountItem(i)
      ensures Written(code[..], at, GroupBytes(LowerGroup(i, old(bracount), nocase), i.q), end)
      decreases i, 1
    {
      hide Has, EncNodes, EncGroup, LowerBranch, LowerMore, PreBranch, PreMore, PreRepeat, GroupBytes, CopyBytes, MadePossessive, Link, CodedGroup, ValidGroup, FormedGroup, NoAtomicItem;
      PreRepeatMore(PreGroup(i, nocase), i.q);
      ghost var g := LowerGroup(i, bracount, nocase);
      var skip := 0;
      if i.capturing {
        bracount := bracount + 1;
        Put(at + 3, bracount);
        skip := 2;
        ghost var before := code[..];
        code[at] := OP_CBRA;
        HasElsewhere1(before, code[..], at + 3, Link(bracount), at);
      } else {
        code[at] := OP_BRA;
      }
      end := CompileRegex(i, at, skip, g.cap);
      GroupRoom(i, old(bracount), nocase);
      LowerGroupFormed(i, old(bracount), old(bracount) + CountItem(i), nocase);
      LoweredPlain(i, old(bracount), nocase);
      if i.q.NoQ? {
        OneGroupBytes(g);
      } else {
        GroupPossessive(g, i.q);
        var possessive := i.q.mode == Possessive;
        end := RepeatGroup(at, end, i.q.min, i.q.max, if possessive then Greedy else i.q.mode, g);
        if possessive && i.q.max != 0 { end := Possessify(at, end, CopyBytes(g, Greedily(i.q))); }
      }
    }

    /** memmove upwards. */
    method MoveUp(from: nat, len: nat, up: nat)
      requires from + len + up <= code.Length
      modifies code
      ensures code[..from] == old(code[..from]) && code[from + up..from + up + len] == old(code[from..from + len])
    {
      var i := len;
      while i > 0
        invariant 0 <= i <= len && code[..from + i] == old(code[..from + i])
        invariant code[from + up + i..from + up + len] == old(code[from + i..from + len])
      {
        i := i - 1;
        assert code[..from + i + 1][from + i] == old(code[..from + i + 1])[from + i];
        code[from + up + i] := code[from + i];
      }
    }

    /** The same, for a copy of the bytes e. */
    method MoveGroup(at: nat, len: nat, up: nat, ghost e: seq<Byte>)
      requires Has(code[..], at, e) && len == |e| && at + len + up <= code.Length && 0 < up
      modifies code
      ensures code[..at] == old(code[..at]) && Has(code[..], at + up, e)
    {
      code[at + len] := OP_END;
      assert code[at..at + len] == old(code[..])[at..at + len] == e;
      MoveUp(at, len, up);
      assert code[..][at + up..at + up + len] == e;
    }

    /** memcpy to a place behind. */
    method CopyTo(from: nat, to: nat, ghost e: seq<Byte>, len: nat)
      requires Has(code[..], from, e) && from + len <= to && to + len <= code.Length && len == |e|
      modifies code
      ensures code[..to] == old(code[..to]) && Has(code[..], to, e)
    {
      for i := 0 to len
        invariant code[..to] == old(code[..to]) && code[to..to + i] == e[..i]
      {
        assert code[from + i] == code[..to][from + i] == old(code[..])[from..from + len][i];
        code[to + i] := code[from + i];
      }
      assert code[..][to..to + len] == e;
    }

    method RepeatGroup(at: nat, end0: nat, min: nat, max: int, mode: Mode, ghost g: Group) returns (end: nat)
      requires Written(code[..], at, EncGroup(g), end0) && g.ket == Ket && !g.s && CodedGroup(g, nocase)
      requires ValidQuant(Q(min, max, mode)) && mode != Possessive
      requires at + |CopyBytes(g, Q(min, max, mode))| <= code.Length <= MAX_PATTERN_SIZE
      modifies code
      ensures code[..at] == old(code[..at]) && Written(code[..], at, CopyBytes(g, Q(min, max, mode)), end)
    {
      hide Has, EncNodes, EncGroup, CopyBytes, NestedBytes, LastBytes;
      GroupForm(g, min, max, mode);
      assert Times(0, EncGroup(g)) == [];

      if max < 0 {
        end := Unbounded(at, end0, min, mode, g);
      } else if min == 0 {
        assert [] + NestedBytes(max, g, mode) == NestedBytes(max, g, mode);
        end := AtMost(at, end0, max, mode, g);
      } else {
        end := Between(at, end0, min, max, mode, g);
      }
    }

    /** k more copies of the group at `at`, one after the other. */
    method Replicate(at: nat, end0: nat, k: nat, ghost g: Group) returns (last: nat, end: nat)
      requires Written(code[..], at, EncGroup(g), end0) && end0 + |Times(k, EncGroup(g))| <= code.Length
      modifies code
      ensures code[..at] == old(code[..at]) && Written(code[..], at, Times(k, EncGroup(g)), last)
      ensures Written(code[..], last, EncGroup(g), end)
    {
      hide Has, EncGroup;
      ghost var e := EncGroup(g);
      var len := end0 - at;
      last, end := at, end0;
      WrittenEnd(code[..], at, e, end0);
      WrittenNothing(code[..], at);
      for i := 0 to k
        invariant last + len == end && end + |Times(k - i, e)| <= code.Length && at <= last
        invariant code[..at] == old(code[..at]) && Has(code[..], at, e)
        invariant Written(code[..], at, Times(i, e), last) && Written(code[..], last, e, end)
      {
        ghost var before := code[..];
        CopyTo(at, end, e, len);
        assert before[..end][..at] == code[..end][..at] && before[..end][..last] == code[..end][..last];
        HasFrame(before, code[..], at, e, end);
        HasFrame(before, code[..], last, e, end);
        WrittenMore(before, code[..], at, Times(i, e), last, e, end);
        TimesSnoc(i, e);
        TimesSnoc(k - i - 1, e);
        last, end := end, end + len;
      }
    }

    /** {min,}: min - 1 copies, and a last one that repeats without limit. */
    method Unbounded(at: nat, end0: nat, min: nat, mode: Mode, ghost g: Group) returns (end: nat)
      requires Written(code[..], at, EncGroup(g), end0) && g.ket == Ket && !g.s && CodedGroup(g, nocase)
      requires mode != Possessive && at + |LastBytes(min, g, mode)| <= code.Length <= MAX_PATTERN_SIZE
      modifies code
      ensures code[..at] == old(code[..at]) && Written(code[..], at, LastBytes(min, g, mode), end)
    {
      hide Has, EncNodes, EncGroup, Times;
      UnlimitedLen(g, mode);
      ghost var before: seq<Byte>;
      var last: nat;
      var ket := FindKet(at, g);
      var ketOffset := end0 - ket;
      if min == 0 {
        MoveGroup(at, end0 - at, 1, EncGroup(g));
        ghost var moved := code[..];
        code[at] := OP_BRAZERO + if mode == Lazy then 1 else 0;
        HasElsewhere1(moved, code[..], at + 1, EncGroup(g), at);
        last, end := at + 1, end0 + 1;
        before := [ZeroOp(mode)];
        HasByte(code[..], at, ZeroOp(mode));
      } else {
        TimesLen(min - 1, EncGroup(g));
        last, end := Replicate(at, end0, min - 1, g);
        before := Times(min - 1, EncGroup(g));
      }
      ghost var written := code[..];
      MakeUnlimited(last, end - ketOffset, mode, g);
      WrittenMore(written, code[..], at, before, last, EncGroup(Unlimited(g, mode)), end);
      assert code[..last][..at] == written[..last][..at];
    }

    /** Follow the links from branch to branch up to the ket. */
    method FindKet(at: nat, ghost g: Group) returns (ket: nat)
      requires Has(code[..], at, EncGroup(g)) && g.ket == Ket && CodedGroup(g, nocase) && code.Length <= MAX_PATTERN_SIZE
      ensures ket == at + Span(g)
    {
      hide Has, EncGroup, EncNodes, EncAlts, Standing, Remaining;
      GroupAt(code[..], at, g);
      StandIn(code[..], at, g, at + Span(g), nocase);
      ghost var end, more := at + Span(g), g.more;
      ket := at + Get(code[..], at + 1);
      StandAlt(code[..], ket, more, end, end, nocase);
      while code[ket] != OP_KET
        invariant ket <= end < code.Length && Remaining(code[..], ket, more, end, end, nocase) && code[end] == OP_KET
        decreases more
      {
        StandAlt(code[..], ket, more, end, end, nocase);
        ket := ket + Get(code[..], ket + 1);
        more := more.more;
        StandAlt(code[..], ket, more, end, end, nocase);
      }
      StandAlt(code[..], ket, more, end, end, nocase);
    }

    /** Set the repeating ket, and the S form if a branch could match empty. */
    method MakeUnlimited(bra0: nat, ketcode: nat, mode: Mode, ghost g: Group)
      requires Has(code[..], bra0, EncGroup(g)) && ketcode == bra0 + Span(g) && g.ket == Ket && !g.s && CodedGroup(g, nocase)
      requires code.Length <= MAX_PATTERN_SIZE && mode != Possessive
      modifies code
      ensures code[..bra0] == old(code[..bra0]) && Has(code[..], bra0, EncGroup(Unlimited(g, mode)))
    {
      hide Has, EncGroup, EncNodes, EncAlts, Standing, Remaining, Get;
      GroupAt(code[..], bra0, g);
      var bracode: nat := ketcode - Get(code[..], ketcode + 1);
      code[ketcode] := OP_KETRMAX + if mode == Lazy then 1 else 0;
      ghost var u := g.(ket := if mode == Lazy then KetRMin else KetRMax);
      KetChanged(old(code[..]), code[..], bra0, g, u.ket);
      var could := CouldBeEmpty(bracode, ketcode, u);
      if could {
        ghost var before := code[..];
        GroupAt(before, bra0, u);
        code[bracode] := code[bracode] + (OP_SBRA - OP_BRA);
        SMarked(before, code[..], bra0, u);
      }
    }

    /** Could a branch of the group match empty? */
    method CouldBeEmpty(bracode: nat, ketcode: nat, ghost g: Group) returns (could: bool)
      requires Has(code[..], bracode, EncGroup(g)) && ketcode == bracode + Span(g) && CodedGroup(g, nocase)
      requires code.Length <= MAX_PATTERN_SIZE
      ensures could == GroupCouldBeEmpty(g)
    {
      hide Has, EncGroup, EncNodes, EncAlts, Standing, Remaining, Get, Lowering.CouldBeEmpty;
      GroupAt(code[..], bracode, g);
      StandIn(code[..], bracode, g, ketcode, nocase);
      could := CouldBeEmptyBranch(code[..], bracode, ketcode, g.b, nocase);
      ghost var more := g.more;
      var scode: nat := bracode + Get(code[..], bracode + 1);
      while !could && At(code[..], scode) == OP_ALT
        invariant Remaining(code[..], scode, more, ketcode, ketcode, nocase)
        invariant GroupCouldBeEmpty(g) == (could || AltsCouldBeEmpty(more))
        decreases more
      {
        StandAlt(code[..], scode, more, ketcode, ketcode, nocase);
        could := CouldBeEmptyBranch(code[..], scode, ketcode, more.b, nocase);
        scode := scode + Get(code[..], scode + 1);
        more := more.more;
      }
      if !could { StandAlt(code[..], scode, more, ketcode, ketcode, nocase); }
    }

    /** {0} and {0,1}: only a prefix. */
    method AtMostOne(at: nat, end0: nat, max: nat, mode: Mode, ghost g: Group) returns (end: nat)
      requires Written(code[..], at, EncGroup(g), end0) && mode != Possessive && max <= 1
      requires at + 1 + |EncGroup(g)| <= code.Length <= MAX_PATTERN_SIZE
      modifies code
      ensures code[..at] == old(code[..at])
      ensures Written(code[..], at, [if max == 0 then OP_SKIPZERO else ZeroOp(mode)] + EncGroup(g), end)
    {
      hide Has, EncNodes, EncGroup;
      MoveGroup(at, end0 - at, 1, EncGroup(g));
      ghost var moved := code[..];
      code[at] := if max == 0 then OP_SKIPZERO else OP_BRAZERO + if mode == Lazy then 1 else 0;
      HasElsewhere1(moved, code[..], at + 1, EncGroup(g), at);
      HasByte(code[..], at, code[at]);
      HasJoin(code[..], at, [code[at]], EncGroup(g));
      end := end0 + 1;
    }

    /** The first of several optional copies: a bracket is opened before it. */
    method OpenOptional(at: nat, len: nat, mode: Mode, ghost g: Group)
      requires Has(code[..], at, EncGroup(g)) && len == |EncGroup(g)| && at + len + 4 <= code.Length && mode != Possessive
      modifies code
      ensures code[..at] == old(code[..at]) && Has(code[..], at + 4, EncGroup(g))
      ensures Pending(code[..], [at + 1], g, ZeroOp(mode), at + 4 + len)
    {
      hide Has, EncGroup, Link, Pending;
      MoveGroup(at, len, 2 + LINK_SIZE, EncGroup(g));
      ghost var moved := code[..];
      code[at] := OP_BRAZERO + if mode == Lazy then 1 else 0;
      code[at + 1] := OP_BRA;
      Put(at + 2, 0);
      HasBehind(moved, code[..], at + 4, EncGroup(g));
      NoPending(code[..], g, ZeroOp(mode), at);
      PendingGrow(code[..], [], g, ZeroOp(mode), at, at + 4 + len);
      assert [] + [at + 1] == [at + 1] && code[..at] == moved[..at];
    }

    /** {0,max}: the first copy is moved up, and brackets stay pending around it when
        more copies are nested after it. */
    method AtMost(at: nat, end0: nat, max: nat, mode: Mode, ghost g: Group) returns (end: nat)
      requires Written(code[..], at, EncGroup(g), end0) && mode != Possessive
      requires at + (if max == 0 then 1 + |EncGroup(g)| else |NestedBytes(max, g, mode)|) <= code.Length <= MAX_PATTERN_SIZE
      modifies code
      ensures code[..at] == old(code[..at])
      ensures Written(code[..], at, if max == 0 then [OP_SKIPZERO] + EncGroup(g) else NestedBytes(max, g, mode), end)
    {
      hide Has, EncNodes, EncGroup, NestedBytes, Link, Pending;
      var len := end0 - at;
      NestedOne(g, mode);
      if max <= 1 {
        end := AtMostOne(at, end0, max, mode, g);
        return;
      }
      NestedBytesLen(max, g, mode);
      OpenOptional(at, len, mode, g);
      end := Nest(at + 4, len, at + 4 + len, max - 1, at + 2, mode, g, [at + 1]);
    }

    /** {min,max} with a minimum of at least one. */
    method Between(at: nat, end0: nat, min: nat, max: nat, mode: Mode, ghost g: Group) returns (end: nat)
      requires Written(code[..], at, EncGroup(g), end0) && mode != Possessive && 0 < min <= max
      requires at + |Times(min, EncGroup(g))| + |NestedBytes(max - min, g, mode)| <= code.Length <= MAX_PATTERN_SIZE
      modifies code
      ensures code[..at] == old(code[..at])
      ensures Written(code[..], at, Times(min, EncGroup(g)) + NestedBytes(max - min, g, mode), end)
    {
      hide Has, EncNodes, EncGroup, NestedBytes, Times, Pending, Written;
      ghost var e := EncGroup(g);
      CopiesRoom(code[..], at, min, e, end0);
      var last, cur := Replicate(at, end0, min - 1, g);
      CopiesDone(code[..], at, min, e, last, cur);
      if max == min {
        NoCopies(g, mode);
        assert Times(min, e) + [] == Times(min, e);
        return cur;
      }
      ghost var before := code[..];
      NestedBytesLen(max - min, g, mode);
      NoPending(before, g, ZeroOp(mode), cur);
      end := Nest(last, cur - last, cur, max - min, -1, mode, g, []);
      assert before[..cur][..at] == code[..cur][..at];
      WrittenMore(before, code[..], at, Times(min, e), cur, NestedBytes(max - min, g, mode), end);
    }

    /** k more optional copies of the len bytes at prev, each nested in the one before,
        and then the kets of all pending brackets. */
    method Nest(prev: nat, len: nat, cur0: nat, k: nat, bralink0: int, mode: Mode, ghost g: Group, ghost pend0: seq<nat>)
      returns (end: nat)
      requires k > 0 && mode != Possessive && Has(code[..], prev, EncGroup(g)) && len == |EncGroup(g)| && prev + len <= cur0
      requires Pending(code[..], pend0, g, ZeroOp(mode), cur0) && LinksTo(pend0, bralink0)
      requires cur0 + NestLen(k, len) + 3 * |pend0| <= code.Length <= MAX_PATTERN_SIZE
      modifies code
      ensures 0 <= Base(pend0, cur0) <= code.Length && code[..Base(pend0, cur0)] == old(code[..Base(pend0, cur0)])
      ensures Written(code[..], Base(pend0, cur0), NestedBytes(k + |pend0|, g, mode), end)
    {
      hide Has, EncNodes, EncGroup, NestedBytes, Link, Pending;
      var cur: nat, bralink := cur0, bralink0;
      ghost var pend: seq<nat>, e := pend0, EncGroup(g);
      BaseFits(code[..], pend, g, ZeroOp(mode), cur);
      var i := k - 1;
      while i > 0
        invariant 0 <= i < k && prev + len <= cur && |pend| == |pend0| + k - 1 - i
        invariant cur + NestLen(i + 1, len) + 3 * |pend| == cur0 + NestLen(k, len) + 3 * |pend0|
        invariant Has(code[..], prev, e) && Pending(code[..], pend, g, ZeroOp(mode), cur) && LinksTo(pend, bralink)
        invariant Base(pend, cur) == Base(pend0, cur0) <= cur && code[..cur0] == old(code[..cur0])
        invariant cur0 <= cur
      {
        cur, bralink := OpenCopy(prev, len, cur, bralink, mode, g, pend);
        pend := pend + [bralink - 1];
        i := i - 1;
      }
      ghost var nested := code[..];
      end := LastCopy(prev, len, cur, mode, g, pend);
      ghost var complete, base := code[..], Base(pend0, cur0);
      NestedOne(g, mode);
      end := CloseNested(cur, end, bralink, mode, g, pend);
      assert code[..base] == complete[..base] == complete[..cur][..base] == nested[..cur][..base];
      assert nested[..base] == nested[..cur0][..base] == old(code[..])[..cur0][..base];
    }

    /** BRAZERO, a bracket that stays pending, and a copy. */
    method OpenCopy(prev: nat, len: nat, at: nat, bralink0: int, mode: Mode, ghost g: Group, ghost pend: seq<nat>)
      returns (cur: nat, bralink: int)
      requires mode != Possessive && Has(code[..], prev, EncGroup(g)) && len == |EncGroup(g)| && prev + len <= at
      requires Pending(code[..], pend, g, ZeroOp(mode), at) && LinksTo(pend, bralink0)
      requires at + 4 + len <= code.Length <= MAX_PATTERN_SIZE
      modifies code
      ensures code[..at] == old(code[..at]) && cur == at + 4 + len && bralink == at + 2
      ensures Has(code[..], prev, EncGroup(g)) && Pending(code[..], pend + [at + 1], g, ZeroOp(mode), cur)
    {
      hide Has, EncNodes, EncGroup, Link, PendingAt;
      PendingLinks(code[..], pend, g, ZeroOp(mode), at);
      code[at] := OP_BRAZERO + if mode == Lazy then 1 else 0;
      code[at + 1] := OP_BRA;
      bralink := at + 2;
      Put(at + 2, if bralink0 < 0 then 0 else bralink - bralink0);
      cur := at + 4;
      HasFrame(old(code[..]), code[..], prev, EncGroup(g), at);
      ghost var marked := code[..];
      CopyTo(prev, cur, EncGroup(g), len);
      assert code[..at] == code[..cur][..at] == marked[..cur][..at];
      assert forall i :: at <= i < at + 4 ==> code[..cur][i] == code[i] && marked[..cur][i] == marked[i];
      HasFrame(marked, code[..], prev, EncGroup(g), cur);
      PendingFrame(old(code[..]), code[..], pend, g, ZeroOp(mode), at);
      PendingGrow(code[..], pend, g, ZeroOp(mode), at, cur + len);
      cur := cur + len;
    }

    /** The last copy needs no bracket of its own. */
    method LastCopy(prev: nat, len: nat, at: nat, mode: Mode, ghost g: Group, ghost pend: seq<nat>) returns (cur: nat)
      requires mode != Possessive && Has(code[..], prev, EncGroup(g)) && len == |EncGroup(g)| && prev + len <= at
      requires Pending(code[..], pend, g, ZeroOp(mode), at) && at + 1 + len <= code.Length
      modifies code
      ensures code[..at] == old(code[..at]) && Pending(code[..], pend, g, ZeroOp(mode), at)
      ensures Written(code[..], at, [ZeroOp(mode)] + EncGroup(g), cur)
    {
      hide Has, EncNodes, EncGroup, Pending;
      code[at] := OP_BRAZERO + if mode == Lazy then 1 else 0;
      HasFrame(old(code[..]), code[..], prev, EncGroup(g), at);
      ghost var marked := code[..];
      CopyTo(prev, at + 1, EncGroup(g), len);
      assert code[at] == code[..at + 1][at] == marked[..at + 1][at];
      assert code[..at] == code[..at + 1][..at] == marked[..at + 1][..at];
      HasByte(code[..], at, ZeroOp(mode));
      HasJoin(code[..], at, [ZeroOp(mode)], EncGroup(g));
      PendingFrame(old(code[..]), code[..], pend, g, ZeroOp(mode), at);
      cur := at + 1 + len;
    }

    /** Chain through the pending brackets, and give each its ket and its length. */
    method CloseNested(last0: nat, cur0: nat, bralink0: int, mode: Mode, ghost g: Group, ghost pend0: seq<nat>) returns (cur: nat)
      requires mode != Possessive && Pending(code[..], pend0, g, ZeroOp(mode), last0) && LinksTo(pend0, bralink0)
      requires Written(code[..], last0, NestedBytes(1, g, mode), cur0)
      requires cur0 + 3 * |pend0| <= code.Length <= MAX_PATTERN_SIZE
      modifies code
      ensures 0 <= Base(pend0, last0) <= code.Length && code[..Base(pend0, last0)] == old(code[..Base(pend0, last0)])
      ensures Written(code[..], Base(pend0, last0), NestedBytes(1 + |pend0|, g, mode), cur)
    {
      hide Has, EncNodes, EncGroup, NestedBytes, Link, PendingAt;
      cur := cur0;
      var bralink := bralink0;
      ghost var pend: seq<nat>, last: nat := pend0, last0;
      BaseFits(code[..], pend, g, ZeroOp(mode), last);
      while bralink >= 0
        invariant Pending(code[..], pend, g, ZeroOp(mode), last) && LinksTo(pend, bralink)
        invariant Base(pend, last) == Base(pend0, last0) <= last <= code.Length && 0 <= Base(pend, last)
        invariant |pend| <= |pend0| && Written(code[..], last, NestedBytes(1 + |pend0| - |pend|, g, mode), cur)
        invariant cur + 3 * |pend| <= code.Length && code[..Base(pend0, last0)] == old(code[..Base(pend0, last0)])
        decreases |pend|
      {
        ghost var bra0, before := pend[|pend| - 1], code[..];
        BaseFits(code[..], pend, g, ZeroOp(mode), last);
        bralink := CloseOne(last, cur, bralink, 1 + |pend0| - |pend|, mode, g, pend);
        assert before[..bra0 - 1][..Base(pend0, last0)] == code[..bra0 - 1][..Base(pend0, last0)];
        pend, last := pend[..|pend| - 1], bra0 - 1;
        cur := cur + 1 + LINK_SIZE;
      }
    }

    /** Close the innermost pending bracket, around k copies that end at cur. */
    method CloseOne(ghost last: nat, cur: nat, bralink0: nat, ghost k: nat, mode: Mode, ghost g: Group, ghost pend: seq<nat>)
      returns (bralink: int)
      requires mode != Possessive && Pending(code[..], pend, g, ZeroOp(mode), last) && pend != [] && LinksTo(pend, bralink0)
      requires k > 0 && Written(code[..], last, NestedBytes(k, g, mode), cur) && cur + 3 <= code.Length <= MAX_PATTERN_SIZE
      modifies code
      ensures var bra, outer := pend[|pend| - 1], pend[..|pend| - 1];
        && 1 <= bra <= code.Length && code[..bra - 1] == old(code[..bra - 1])
        && Pending(code[..], outer, g, ZeroOp(mode), bra - 1) && LinksTo(outer, bralink) && bra - 1 <= last
        && Base(outer, bra - 1) == Base(pend, last)
        && Written(code[..], bra - 1, NestedBytes(k + 1, g, mode), cur + 3)
    {
      hide Has, EncNodes, EncGroup, NestedBytes, Link, Pending, Get;
      ghost var before := code[..];
      PendingLinks(before, pend, g, ZeroOp(mode), last);
      Shrink(before, pend, g, ZeroOp(mode), last);
      WrittenEnd(before, last, NestedBytes(k, g, mode), cur);
      var offset: nat := cur - bralink0 + 1;
      var bra: nat := cur - offset;
      var oldLinkOffset := Get(code[..], bra + 1);
      bralink := if oldLinkOffset == 0 then -1 else bralink0 - oldLinkOffset;
      code[cur] := OP_KET;
      Put(cur + 1, offset);
      Put(bra + 1, offset);
      PendingClose(before, code[..], pend, g, ZeroOp(mode), mode, last, k, cur);
      assert code[..bra - 1] == before[..bra - 1];
    }
  }

  // ---------- both passes ----------

  datatype Result = Compiled(code: seq<Byte>, bracount: nat) | TooLarge

  /** pcre_compile2: the first pass gives the length, and the second writes into a block
      of that length. It is never overrun, and no pattern is refused whose code fits. */
  method CompilePattern(b: Branch, more: Branches, nocase: bool) returns (result: Result)
    requires ValidBranch(b, nocase) && ValidMore(more, nocase)
    ensures result.Compiled? <==> |EncProgram(Compile(b, more, nocase))| + Removed(b) + RemovedMore(more) <= 65536
    ensures result.Compiled? ==>
      result.code == EncProgram(Compile(b, more, nocase)) && result.bracount == Count(b) + CountMore(more) < 0x1_0000
  {
    hide EncNodes, EncAlts, EncGroup, LowerBranch, LowerMore, PreBranch, PreMore, Span, ValidBranch, ValidMore;
    var length := Measure(b, more, nocase);
    LengthSuffices(b, more, nocase);
    if length > MAX_PATTERN_SIZE { return TooLarge; }
    CountsFit(b, more, nocase);
    var compiler := new Compiler(nocase, length);
    compiler.code[0] := OP_BRA;
    var end := compiler.CompileRegex(Paren(false, b, more, NoQ), 0, 0, 0);
    compiler.code[end] := OP_END;
    result := Compiled(compiler.code[..end + 1], compiler.bracount);
  }

  /** Every capturing group takes at least one byte. */
  lemma {:induction false} CountFits(b: Branch, nocase: bool)
    requires ValidBranch(b, nocase)
    ensures Count(b) <= PreBranch(b, nocase)
    decreases b, 1
  {
    hide PreRepeat, PreAtom;
    if b.Then? {
      CountFits(b.rest, nocase);
      if b.i.Paren? {
        ItemCountFits(b.i, nocase);
        PreRepeatMore(PreGroup(b.i, nocase), b.i.q);
      }
    }
  }

  lemma {:induction false} ItemCountFits(i: Item, nocase: bool)
    requires ValidItem(i, nocase) && i.Paren?
    ensures CountItem(i) <= PreGroup(i, nocase)
    decreases i, 0
  {
    CountFits(i.b, nocase);
    CountMoreFits(i.more, nocase);
  }

  lemma {:induction false} CountMoreFits(m: Branches, nocase: bool)
    requires ValidMore(m, nocase)
    ensures CountMore(m) <= PreMore(m, nocase)
    decreases m, 1
  {
    if m.Or? {
      CountFits(m.b, nocase);
      CountMoreFits(m.more, nocase);
    }
  }

  lemma CountsFit(b: Branch, more: Branches, nocase: bool)
    requires ValidBranch(b, nocase) && ValidMore(more, nocase)
    ensures Count(b) + CountMore(more) + 7 <= PreLength(b, more, nocase)
  {
    CountFits(b, nocase);
    CountMoreFits(more, nocase);
  }

  // ---------- lowered groups ----------

  lemma PreRepeatMore(len: nat, q: Quant)
    requires ValidQuant(q) && len >= 6
    ensures PreRepeat(len, q) >= len
  {
  }

  lemma CopiesRoom(code: seq<Byte>, at: nat, min: nat, e: seq<Byte>, end: nat)
    requires min > 0 && Written(code, at, e, end)
    ensures end + |Times(min - 1, e)| == at + |Times(min, e)|
  {
    TimesSnoc(min - 1, e);
  }

  lemma CopiesDone(code: seq<Byte>, at: nat, min: nat, e: seq<Byte>, last: nat, end: nat)
    requires min > 0 && Written(code, at, Times(min - 1, e), last) && Written(code, last, e, end)
    ensures Written(code, at, Times(min, e), end) && Has(code, last, e) && last + |e| == end && at <= end <= |code|
    ensures end == at + |Times(min, e)|
  {
    TimesSnoc(min - 1, e);
    WrittenMore(code, code, at, Times(min - 1, e), last, e, end);
  }

  lemma LoweredPlain(i: Item, n: nat, nocase: bool)
    requires ValidItem(i, nocase) && i.Paren?
    ensures var g := LowerGroup(i, n, nocase); g.ket == Ket && !g.s
  {
  }

  lemma OneGroupBytes(g: Group)
    ensures GroupBytes(g, NoQ) == EncGroup(g)
  {
    hide EncGroup, EncNodes;
    ConsTail(Grp(NoPrefix, g), Nil);
  }

  lemma HasBehind(code: seq<Byte>, code': seq<Byte>, pc: nat, e: seq<Byte>)
    requires Has(code, pc, e) && |code'| == |code| && forall i :: pc <= i < |code| ==> code'[i] == code[i]
    ensures Has(code', pc, e)
  {
    assert code'[pc..pc + |e|] == code[pc..pc + |e|];
  }

  lemma HasElsewhere1(code: seq<Byte>, code': seq<Byte>, pc: nat, e: seq<Byte>, at: nat)
    requires Has(code, pc, e) && |code'| == |code| && at < pc
    requires forall i :: 0 <= i < |code| && i != at ==> code'[i] == code[i]
    ensures Has(code', pc, e)
  {
    assert code'[pc..pc + |e|] == code[pc..pc + |e|];
  }

  // ---------- repeated single items ----------

  /** Opcode of a repeat of x: off is its place in the family. */
  function RepeatOp(x: Single, off: int): Byte
    requires !x.Class? && 0 <= off < 13
  {
    OP_STAR + 13 * Family(x) + off
  }

  /** What quantifiers make of a single character. */
  function SingleBytes(x: Single, min: nat, max: int, mode: Mode): seq<Byte>
    requires !x.Class?
  {
    var c, lazy := Arg(x), if mode == Lazy then 1 else 0;
    var star := RepeatOp(x, if mode == Possessive then 9 else lazy);
    var plus := RepeatOp(x, if mode == Possessive then 10 else 2 + lazy);
    var query := RepeatOp(x, if mode == Possessive then 11 else 4 + lazy);
    var upto := RepeatOp(x, if mode == Possessive then 12 else 6 + lazy);
    if max == 0 then []
    else if min == 0 then
      (if max < 0 then [star] else if max == 1 then [query] else [upto] + Link(max)) + [c]
    else if min == 1 then
      if max < 0 then [plus, c] else if max == 1 then EncOne(x) else EncOne(x) + [upto] + Link(max - 1) + [c]
    else
      [RepeatOp(x, 8)] + Link(min) + [c] +
      if max < 0 then [star, c]
      else if max <= min then []
      else if max == min + 1 then [query, c]
      else [upto] + Link(max - min) + [c]
  }

  lemma SingleForm(x: Single, min: nat, max: int, mode: Mode)
    requires !x.Class? && ValidQuant(Q(min, max, mode))
    ensures RepeatBytes(x, Q(min, max, mode)) == SingleBytes(x, min, max, mode)
  {
    hide EncNodes, SingleBytes;
    if min == 0 || max == 0 {
      Nothing();
      NoTimes(x, min, mode);
      if max != 0 { ExtraForm(x, max, mode); }
    } else if min == 1 {
      SingleOnce(x, max, mode);
    } else {
      SingleMany(x, min, max, mode);
    }
  }

  lemma SingleOnce(x: Single, max: int, mode: Mode)
    requires !x.Class? && max != 0
    ensures EncNodes(RepeatNodes(x, Q(1, max, mode), Nil)) == SingleBytes(x, 1, max, mode)
  {
    hide EncNode, EncNodes, EncOne;
    Nothing();
    var plus, upto := Rep(x, Plus(mode)), Rep(x, Upto(mode, if max > 1 then max - 1 else 1));
    NodeForm(One(x));
    NodeForm(plus);
    NodeForm(upto);
    ConsTail(One(x), Nil);
    ConsTail(plus, Nil);
    ConsTail(One(x), Cons(upto, Nil));
    ConsTail(upto, Nil);
  }

  lemma SingleMany(x: Single, min: nat, max: int, mode: Mode)
    requires !x.Class? && min >= 2 && (max < 0 || min <= max)
    ensures EncNodes(RepeatNodes(x, Q(min, max, mode), Nil)) == SingleBytes(x, min, max, mode)
  {
    hide EncNode, EncNodes, EncOne, Extra;
    var n := if max < 0 then -1 else max - min;
    NodeForm(Rep(x, Exact(min)));
    ConsTail(Rep(x, Exact(min)), Extra(x, n, mode, Nil));
    ExtraForm(x, n, mode);
    assert max > min ==> SingleBytes(x, 0, n, mode) == SingleBytes(x, min, max, mode)[4..];
  }

  /** The part after a minimum. */
  lemma ExtraForm(x: Single, n: int, mode: Mode)
    requires !x.Class?
    ensures EncNodes(Extra(x, n, mode, Nil)) ==
      if n == 0 then [] else SingleBytes(x, 0, n, mode)
  {
    hide EncNode, EncNodes, EncOne;
    Nothing();
    var k := if n < 0 then Star(mode) else if n <= 1 then Query(mode) else Upto(mode, n);
    NodeForm(Rep(x, k));
    ConsTail(Rep(x, k), Nil);
  }

  lemma NodeForm(n: Node)
    ensures n.One? ==> EncNode(n) == EncOne(n.x)
    ensures n.Rep? && !n.x.Class? ==> EncNode(n) == [RepeatOp(n.x, KindOffset(n.k))] + KindCount(n.k) + [Arg(n.x)]
  {
  }

  function PossessiveOp(op: Byte): Byte {
    var off := (op as int - OP_STAR as int) % 13;
    if op >= OP_CRSTAR then op
    else if off == 0 then op + 9 else if off == 2 then op + 8 else if off == 4 then op + 7 else if off == 6 then op + 6 else op
  }

  predicate IsExact(op: Byte) { op in {OP_STAR + 8, OP_NOTSTAR + 8, OP_TYPESTAR + 8} }

  /** The repeats that have a possessive form. */
  predicate HasPossessive(op: Byte) { OP_STAR <= op < OP_CRSTAR && (op as int - OP_STAR as int) % 13 in {0, 2, 4, 6} }

  /** What a + behind the quantifier makes of the bytes of a repeat. */
  function MadePossessive(e: seq<Byte>): seq<Byte>
    requires e != []
  {
    var k := if IsExact(e[0]) then 4 else 0;
    if k >= |e| then e else if HasPossessive(e[k]) then e[k := PossessiveOp(e[k])] else e[..k] + OnceBytes(e[k..])
  }

  lemma OneChanged(code: seq<Byte>, code': seq<Byte>, at: nat, e: seq<Byte>, k: nat)
    requires Has(code, at, e) && at <= k < at + |e| && k < |code| == |code'| && code' == code[k := code'[k]]
    ensures Has(code', at, e[k - at := code'[k]])
  {
    assert code'[at..at + |e|] == code[at..at + |e|][k - at := code'[k]];
  }

  lemma HasIs(code: seq<Byte>, pc: nat, e: seq<Byte>)
    requires Has(code, pc, e)
    ensures pc + |e| <= |code| && code[pc..pc + |e|] == e
  {
  }

  lemma IsHas(code: seq<Byte>, pc: nat, e: seq<Byte>)
    requires pc + |e| <= |code| && code[pc..pc + |e|] == e
    ensures Has(code, pc, e)
  {
  }

  lemma OnceJoined(code: seq<Byte>, from: nat, e: seq<Byte>)
    requires Has(code, from, [OP_ONCE]) && Has(code, from + 1, Link(3 + |e|)) && Has(code, from + 3, e)
    requires Has(code, from + 3 + |e|, [OP_KET]) && Has(code, from + 4 + |e|, Link(3 + |e|))
    ensures Has(code, from, OnceBytes(e))
  {
    hide Has, Link;
    HasJoin(code, from, [OP_ONCE], Link(3 + |e|));
    HasJoin(code, from, [OP_ONCE] + Link(3 + |e|), e);
    HasJoin(code, from, [OP_ONCE] + Link(3 + |e|) + e, [OP_KET]);
    HasJoin(code, from, [OP_ONCE] + Link(3 + |e|) + e + [OP_KET], Link(3 + |e|));
  }

  /** Only the opcode changes, of the part behind an exact minimum if there is one. */
  lemma PossessiveForm(x: Single, min: nat, max: int)
    requires !x.Class? && ValidQuant(Q(min, max, Greedy)) && max != 0 && (min == 1 ==> max < 0)
    ensures var e := SingleBytes(x, min, max, Greedy); e != [] && SingleBytes(x, min, max, Possessive) == MadePossessive(e)
  {
    RepeatOps(x);
    hide Link, OnceBytes, RepeatOp, PossessiveOp, HasPossessive, IsExact, MadePossessive, EncOne;
    var e, c := SingleBytes(x, min, max, Greedy), Arg(x);
    if min <= 1 {
      FirstChanged(e[0], e[1..]);
      assert e == [e[0]] + e[1..] && SingleBytes(x, min, max, Possessive) == [PossessiveOp(e[0])] + e[1..];
    } else {
      var head := [RepeatOp(x, 8)] + Link(min) + [c];
      var tail := e[4..];
      assert e == head + tail;
      ExactChanged(head, tail);
      if tail != [] { assert SingleBytes(x, min, max, Possessive) == head + ([PossessiveOp(tail[0])] + tail[1..]); }
    }
  }

  lemma FirstChanged(op: Byte, tail: seq<Byte>)
    requires HasPossessive(op) && !IsExact(op)
    ensures MadePossessive([op] + tail) == [PossessiveOp(op)] + tail
  {
    hide HasPossessive, IsExact, PossessiveOp, OnceBytes;
    var e := [op] + tail;
    assert e[0 := PossessiveOp(op)] == [PossessiveOp(op)] + tail;
  }

  lemma ExactChanged(head: seq<Byte>, tail: seq<Byte>)
    requires |head| == 4 && IsExact(head[0]) && (tail != [] ==> HasPossessive(tail[0]))
    ensures MadePossessive(head + tail) == if tail == [] then head else head + ([PossessiveOp(tail[0])] + tail[1..])
  {
    hide HasPossessive, IsExact, PossessiveOp, OnceBytes;
    var e := head + tail;
    assert e[0] == head[0];
    if tail == [] {
      assert e == head;
    } else {
      assert e[4] == tail[0] && e[4 := PossessiveOp(tail[0])] == head + ([PossessiveOp(tail[0])] + tail[1..]);
    }
  }

  /** The opcodes of the repeats, and their possessive forms. */
  lemma RepeatOps(x: Single)
    requires !x.Class?
    ensures forall off :: off in {0, 2, 4, 6} ==>
      HasPossessive(RepeatOp(x, off)) && !IsExact(RepeatOp(x, off)) && PossessiveOp(RepeatOp(x, off)) == RepeatOp(x, 9 + off / 2)
    ensures IsExact(RepeatOp(x, 8))
  {
  }

  /** The greedy form takes no more room than the quantifier asks for. */
  lemma PlainFits(x: Single, min: nat, max: int, mode: Mode)
    requires ValidQuant(Q(min, max, mode))
    ensures |RepeatBytes(x, Q(min, max, if mode == Possessive then Greedy else mode))| <= |AtomBytes(x, Q(min, max, mode))|
    ensures mode != Possessive ==> AtomBytes(x, Q(min, max, mode)) == RepeatBytes(x, Q(min, max, mode))
  {
    hide AtomBytes, RepeatBytes;
    AtomBytesAre(x, Q(min, max, mode));
    if mode == Possessive && !Wrapped(x, Q(min, max, mode)) {
      if max == 0 || x.Class? || (min == 1 && max >= 0) {
        SameWhenEnded(x, min, max);
      } else {
        SingleForm(x, min, max, Greedy);
        SingleForm(x, min, max, Possessive);
        PossessiveForm(x, min, max);
      }
    }
  }

  /** {0}, and {1} on a character, end the repeat before its mode is looked at. */
  lemma SameWhenEnded(x: Single, min: nat, max: int)
    requires max == 0 || (!x.Class? && min == 1 && max == 1)
    ensures RepeatBytes(x, Q(min, max, Possessive)) == RepeatBytes(x, Q(min, max, Greedy))
  {
  }

  /** A possessive item is made from its greedy form. */
  lemma AtomPossessive(x: Single, min: nat, max: int, nocase: bool)
    requires ValidSingle(x, nocase) && ValidQuant(Q(min, max, Possessive))
    ensures var e := RepeatBytes(x, Q(min, max, Greedy));
      if max == 0 || (!x.Class? && min == 1 && max == 1) then AtomBytes(x, Q(min, max, Possessive)) == e
      else e != [] && AtomBytes(x, Q(min, max, Possessive)) == MadePossessive(e)
  {
    hide AtomBytes, RepeatBytes, MadePossessive;
    AtomBytesAre(x, Q(min, max, Possessive));
    if max == 0 || (!x.Class? && min == 1 && max == 1) {
      SameWhenEnded(x, min, max);
    } else if Wrapped(x, Q(min, max, Possessive)) {
      WrappedStart(x, min, max, nocase);
      WrappedForm(RepeatBytes(x, Q(min, max, Greedy)));
    } else {
      SingleForm(x, min, max, Greedy);
      SingleForm(x, min, max, Possessive);
      PossessiveForm(x, min, max);
    }
  }

  lemma WrappedForm(e: seq<Byte>)
    requires e != [] && !(OP_STAR <= e[0] < OP_CRSTAR)
    ensures MadePossessive(e) == OnceBytes(e)
  {
    hide OnceBytes;
    assert e[..0] + OnceBytes(e[0..]) == OnceBytes(e);
  }

  lemma WrappedStart(x: Single, min: nat, max: int, nocase: bool)
    requires ValidSingle(x, nocase) && ValidQuant(Q(min, max, Possessive)) && Wrapped(x, Q(min, max, Possessive))
    ensures var e := RepeatBytes(x, Q(min, max, Greedy)); e != [] && !(OP_STAR <= e[0] < OP_CRSTAR)
  {
    hide RepeatBytes;
    if x.Class? { ClassBytes(x, min, max, Greedy); } else { SingleForm(x, min, max, Greedy); }
  }

  /** A possessive group is made from its greedy copies. */
  lemma GroupPossessive(g: Group, q: Quant)
    requires ValidQuant(q) && q.Q?
    ensures var e := CopyBytes(g, Q(q.min, q.max, if q.mode == Possessive then Greedy else q.mode));
      if WrappedGroup(q) then e != [] && GroupBytes(g, q) == MadePossessive(e) else GroupBytes(g, q) == e
  {
    hide CopyBytes, GroupBytes, MadePossessive;
    GroupBytesAre(g, q);
    if WrappedGroup(q) {
      CopyStart(g, Greedily(q));
      WrappedForm(CopyBytes(g, Greedily(q)));
    } else if q.mode == Possessive {
      NoCopyMode(g, q);
    }
  }

  lemma NoCopyMode(g: Group, q: Quant)
    requires ValidQuant(q) && q.Q? && q.max == 0
    ensures CopyBytes(g, q) == CopyBytes(g, Greedily(q))
  {
  }

  /** The copies begin with a bracket or a zero prefix. */
  lemma CopyStart(g: Group, q: Quant)
    requires ValidQuant(q) && q.Q? && q.max != 0
    ensures var e := CopyBytes(g, q); e != [] && e[0] >= OP_BRA
  {
    hide EncNodes, EncNode, Copies, CopyBytes;
    GroupForm(g, q.min, q.max, q.mode);
    Heads(g, q);
  }

  lemma Heads(g: Group, q: Quant)
    requires ValidQuant(q) && q.Q? && q.max != 0
    ensures var e := if q.max < 0 then LastBytes(q.min, g, q.mode) else Times(q.min, EncGroup(g)) + NestedBytes(q.max - q.min, g, q.mode);
      e != [] && e[0] >= OP_BRA
  {
    hide EncNodes, EncAlts, Nested;
    assert EncGroup(g)[0] == EncHead(g)[0] == BraOp(g);
    var u := Unlimited(g, q.mode);
    assert EncGroup(u)[0] == EncHead(u)[0] == BraOp(u);
    hide EncGroup;
    if q.max > q.min {
      var n := Nested(q.max - q.min, g, q.mode);
      NestedHead(q.max - q.min, g, q.mode);
      hide EncNode;
      assert NestedBytes(q.max - q.min, g, q.mode) == EncNode(n);
    }
    if q.min > 0 { assert Times(q.min, EncGroup(g)) == EncGroup(g) + Times(q.min - 1, EncGroup(g)); }
    if q.max < 0 && q.min > 1 { assert Times(q.min - 1, EncGroup(g)) == EncGroup(g) + Times(q.min - 2, EncGroup(g)); }
  }

  lemma NestedHead(k: nat, g: Group, mode: Mode)
    requires k > 0
    ensures var e := EncNode(Nested(k, g, mode)); e != [] && e[0] in {OP_BRAZERO, OP_BRAMINZERO}
  {
    hide EncGroup;
  }

  lemma NoTimes(x: Single, min: nat, mode: Mode)
    requires !x.Class?
    ensures SingleBytes(x, min, 0, mode) == []
  {
  }

  lemma ItemAt(code: seq<Byte>, at: nat, x: Single, nocase: bool)
    requires Has(code, at, EncOne(x)) && !x.Class? && ValidSingle(x, nocase)
    ensures at + |EncOne(x)| <= |code| && |EncOne(x)| == if x.Type? then 1 else 2
    ensures match x
      case Lit(c, nc) => code[at] == (if nc then OP_CHARNC else OP_CHAR) && code[at + 1] == c
      case NotLit(c, _) => code[at] == OP_NOT && code[at + 1] == c
      case Type(op) => code[at] == op
  {
    HasAt(code, at, EncOne(x), 0);
    if !x.Type? { HasAt(code, at, EncOne(x), 1); }
  }

  lemma SuffixIs(min: nat, max: int, mode: Mode, e: seq<Byte>, suffix: seq<Byte>)
    requires ValidQuant(Q(min, max, mode)) && mode != Possessive && max != 0
    requires var lazy := if mode == Lazy then 1 else 0;
      suffix ==
        if min == 0 && max == -1 then [OP_CRSTAR + lazy]
        else if min == 1 && max == -1 then [OP_CRSTAR + 2 + lazy]
        else if min == 0 && max == 1 then [OP_CRSTAR + 4 + lazy]
        else [OP_CRRANGE + lazy] + Link(min) + Link(if max == -1 then 0 else max)
    ensures var k := ClassKind(Q(min, max, mode)); e + suffix == e + [OP_CRSTAR + KindOffset(k)] + KindCount(k)
  {
    var k := ClassKind(Q(min, max, mode));
    assert suffix == [OP_CRSTAR + KindOffset(k)] + KindCount(k);
  }

  lemma ClassBytes(x: Single, min: nat, max: int, mode: Mode)
    requires x.Class? && ValidQuant(Q(min, max, mode)) && mode != Possessive
    ensures RepeatBytes(x, Q(min, max, mode)) ==
      if max == 0 then [] else EncOne(x) + [OP_CRSTAR + KindOffset(ClassKind(Q(min, max, mode)))] + KindCount(ClassKind(Q(min, max, mode)))
  {
    hide EncNodes;
    Nothing();
    if max != 0 { ConsTail(Rep(x, ClassKind(Q(min, max, mode))), Nil); }
  }
}
