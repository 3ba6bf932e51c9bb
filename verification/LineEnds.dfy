/** What the anchors mean: the lines of a subject, and where match() finds them. */
module LineEnds {
  import opened Bytes
  import opened Code
  import opened Semantics
  import opened Machine
  import opened Pattern
  import opened Theorems
  import opened OneItem

  // ---------- lines ----------

  const LF: Byte := 10

  /** The lines of a text. The last one is empty where the text ends with a newline. */
  function SplitLines(s: seq<Byte>): (lines: seq<seq<Byte>>)
    ensures |lines| > 0
  {
    if s == [] then [[]]
    else
      var rest := SplitLines(s[1..]);
      if s[0] == LF then [[]] + rest else [[s[0]] + rest[0]] + rest[1..]
  }

  function JoinLines(lines: seq<seq<Byte>>): seq<Byte>
    requires |lines| > 0
  {
    if |lines| == 1 then lines[0] else lines[0] + [LF] + JoinLines(lines[1..])
  }

  /** No line holds a newline, and joined by newlines they are the text. */
  lemma {:induction false} SplitJoins(s: seq<Byte>)
    ensures JoinLines(SplitLines(s)) == s
    ensures forall i :: 0 <= i < |SplitLines(s)| ==> LF !in SplitLines(s)[i]
  {
    if s != [] {
      SplitJoins(s[1..]);
      var rest, lines := SplitLines(s[1..]), SplitLines(s);
      if s[0] == LF {
        assert lines[1..] == rest;
        assert s == [LF] + s[1..];
      } else {
        assert lines[1..] == rest[1..];
        assert s == [s[0]] + s[1..];
        if |rest| > 1 { assert ([s[0]] + rest[0]) + [LF] + JoinLines(rest[1..]) == [s[0]] + (rest[0] + [LF] + JoinLines(rest[1..])); }
      }
    }
  }

  function LineStart(lines: seq<seq<Byte>>, i: nat): nat
    requires i < |lines|
  {
    if i == 0 then 0 else |lines[0]| + 1 + LineStart(lines[1..], i - 1)
  }

  function LineEnd(lines: seq<seq<Byte>>, i: nat): nat
    requires i < |lines|
  {
    LineStart(lines, i) + |lines[i]|
  }

  predicate AtStart(s: seq<Byte>, p: nat) { exists i :: 0 <= i < |SplitLines(s)| && p == LineStart(SplitLines(s), i) }

  predicate AtEnd(s: seq<Byte>, p: nat) { exists i :: 0 <= i < |SplitLines(s)| && p == LineEnd(SplitLines(s), i) }

  /** At the end of the last line, or of the one before it if the last one is empty. */
  predicate AtFinish(s: seq<Byte>, p: nat) {
    var lines := SplitLines(s);
    p == LineEnd(lines, |lines| - 1) || (|lines| > 1 && lines[|lines| - 1] == [] && p == LineEnd(lines, |lines| - 2))
  }

  /** The first line, and the lines of the rest. */
  lemma LinesStep(s: seq<Byte>, i: nat)
    requires s != [] && i < |SplitLines(s)|
    ensures var lines, rest := SplitLines(s), SplitLines(s[1..]);
      if s[0] == LF then
        |lines| == |rest| + 1 && (i > 0 ==> lines[i] == rest[i - 1] && LineStart(lines, i) == 1 + LineStart(rest, i - 1))
      else
        |lines| == |rest| && LineStart(lines, i) == (if i == 0 then 0 else 1 + LineStart(rest, i)) &&
        |lines[i]| == |rest[i]| + if i == 0 then 1 else 0
  {
    var lines, rest := SplitLines(s), SplitLines(s[1..]);
    if s[0] == LF { assert lines[1..] == rest; } else { assert lines[1..] == rest[1..]; }
  }

  lemma {:induction false} LinesTouch(lines: seq<seq<Byte>>, i: nat)
    requires 0 < i < |lines|
    ensures LineStart(lines, i) == LineEnd(lines, i - 1) + 1
    decreases i
  {
    if i > 1 { LinesTouch(lines[1..], i - 1); }
  }

  lemma {:induction false} LinesFit(s: seq<Byte>, i: nat)
    requires i < |SplitLines(s)|
    ensures var lines := SplitLines(s);
      && LineEnd(lines, i) <= |s| && (LineStart(lines, i) == 0 <==> i == 0)
      && (i > 0 ==> s[LineStart(lines, i) - 1] == LF)
      && (if i == |lines| - 1 then LineEnd(lines, i) == |s| else LineEnd(lines, i) < |s| && s[LineEnd(lines, i)] == LF)
      && (i > 0 ==> LineStart(lines, i) == LineEnd(lines, i - 1) + 1)
    decreases |s|
  {
    if i > 0 { LinesTouch(SplitLines(s), i); }
    if s != [] {
      LinesStep(s, i);
      hide SplitLines, LineStart;
      assert s[0] == LF && i > 0 ==> i - 1 < |SplitLines(s[1..])|;
      if s[0] == LF {
        if i > 0 { LinesFit(s[1..], i - 1); }
      } else {
        LinesFit(s[1..], i);
      }
    }
  }

  /** Every newline ends a line. */
  lemma {:induction false} LineOf(s: seq<Byte>, p: nat) returns (i: nat)
    requires p == |s| || (p < |s| && s[p] == LF)
    ensures i < |SplitLines(s)| && LineEnd(SplitLines(s), i) == p
    decreases |s|
  {
    i := 0;
    if s != [] && !(s[0] == LF && p == 0) {
      i := LineOf(s[1..], p - 1);
      if s[0] == LF { i := i + 1; }
      LinesStep(s, i);
    }
  }

  /** Where lines start and end, byte by byte. */
  lemma StartsAre(s: seq<Byte>, p: nat)
    requires p <= |s|
    ensures AtStart(s, p) <==> p == 0 || s[p - 1] == LF
  {
    var lines := SplitLines(s);
    assert LineStart(lines, 0) == 0;
    hide SplitLines, LineStart;
    forall i | 0 <= i < |lines| ensures p == LineStart(lines, i) ==> p == 0 || s[p - 1] == LF { LinesFit(s, i); }
    if p > 0 && s[p - 1] == LF {
      var i := LineOf(s, p - 1);
      LinesFit(s, i);
      LinesFit(s, i + 1);
    }
  }

  lemma EndsAre(s: seq<Byte>, p: nat)
    requires p <= |s|
    ensures AtEnd(s, p) <==> p == |s| || s[p] == LF
  {
    var lines := SplitLines(s);
    hide SplitLines, LineStart, LineEnd;
    forall i | 0 <= i < |lines| ensures p == LineEnd(lines, i) ==> p == |s| || s[p] == LF { LinesFit(s, i); }
    if p == |s| || s[p] == LF { var i := LineOf(s, p); }
  }

  lemma FinishIs(s: seq<Byte>, p: nat)
    requires p <= |s|
    ensures AtFinish(s, p) <==> p == |s| || (p == |s| - 1 && s[p] == LF)
  {
    var lines := SplitLines(s);
    hide SplitLines, LineStart;
    LinesFit(s, |lines| - 1);
    if |lines| > 1 { LinesFit(s, |lines| - 2); }
    if p == |s| - 1 && s[p] == LF {
      var i := LineOf(s, p);
      LinesFit(s, i);
      LinesFit(s, i + 1);
    }
  }

  lemma PlacesAre(s: seq<Byte>, p: nat)
    requires p <= |s|
    ensures AtStart(s, p) <==> p == 0 || s[p - 1] == LF
    ensures AtEnd(s, p) <==> p == |s| || s[p] == LF
    ensures AtFinish(s, p) <==> p == |s| || (p == |s| - 1 && s[p] == LF)
  {
    StartsAre(s, p);
    EndsAre(s, p);
    FinishIs(s, p);
  }

  // ---------- what match() finds ----------

  /** match() on a lone anchor says that it holds, or that it does not; under
      PCRE_NOTEMPTY it never does. */
  ghost predicate Finds(md: Md, st: State, op: Byte, holds: bool) {
    Asked(md, st, [op]) &&
    var o := Call(md, st, Begin(md), false);
    if holds && !md.c.notempty then o.rc == MATCH && o.st.endPtr == md.mstart else o.rc == NOMATCH
  }

  lemma AnchorCall(md: Md, st: State, op: Byte)
    requires Asked(md, st, [op]) && op in {OP_SOD, OP_EODN, OP_EOD, OP_CIRC, OP_DOLL}
    ensures Finds(md, st, op, ZeroOk(md.c, op, md.mstart))
  {
    hide Call, ZeroOk;
    OneCall(md, st, Assertion(op));
  }

  /** ^ holds at the start of the subject, and under PCRE_MULTILINE at the start of every
      line, but not behind a newline that ends the subject; nor at the start of the
      subject under PCRE_NOTBOL. */
  lemma Circumflex(md: Md, st: State)
    requires Asked(md, st, [OP_CIRC])
    ensures var s, p := md.c.s, md.mstart;
      Finds(md, st, OP_CIRC, (if md.c.multiline then AtStart(s, p) && (p < |s| || s == []) else p == 0) && !(p == 0 && md.c.notbol))
  {
    PlacesAre(md.c.s, md.mstart);
    AnchorCall(md, st, OP_CIRC);
  }

  /** $ holds under PCRE_MULTILINE at the end of every line, and otherwise at the end of the
      subject or before a newline that ends it, if PCRE_DOLLAR_ENDONLY is not set; under
      PCRE_NOTEOL it holds at neither of these, unless a newline follows and every line
      counts. */
  lemma Dollar(md: Md, st: State)
    requires Asked(md, st, [OP_DOLL])
    ensures var s, p := md.c.s, md.mstart;
      Finds(md, st, OP_DOLL,
            if md.c.multiline then AtEnd(s, p) && !(p == |s| && md.c.noteol)
            else !md.c.noteol && if md.c.endonly then p == |s| else AtFinish(s, p))
  {
    PlacesAre(md.c.s, md.mstart);
    AnchorCall(md, st, OP_DOLL);
  }

  /** \A, \z and \Z look at no option. */
  lemma SubjectEnds(md: Md, st: State)
    ensures Asked(md, st, [OP_SOD]) ==> Finds(md, st, OP_SOD, md.mstart == 0)
    ensures Asked(md, st, [OP_EOD]) ==> Finds(md, st, OP_EOD, md.mstart == |md.c.s|)
    ensures Asked(md, st, [OP_EODN]) ==> Finds(md, st, OP_EODN, AtFinish(md.c.s, md.mstart))
  {
    hide Finds;
    if Asked(md, st, [OP_SOD]) { AnchorCall(md, st, OP_SOD); }
    if Asked(md, st, [OP_EOD]) { AnchorCall(md, st, OP_EOD); }
    if Asked(md, st, [OP_EODN]) {
      PlacesAre(md.c.s, md.mstart);
      AnchorCall(md, st, OP_EODN);
    }
  }
}
