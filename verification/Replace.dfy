/** RE::Rewrite and RE::GlobalReplace of the C++ wrapper. */
module Replace {
  import opened Bytes

  const BACKSLASH: Byte := 92

  /** What TryMatch reports: the number of pairs in vec that were set, or 0. */
  datatype Try = Try(matches: nat, vec: seq<int>)

  /** The pairs lie in the text; the first is the match, which does not begin before
      start. A group that took no part has a negative start. */
  predicate Sane(t: Try, start: nat, text: seq<Byte>) {
    t.matches > 0 ==>
      |t.vec| >= 20 && start <= t.vec[0] <= t.vec[1] <= |text| &&
      forall n :: 0 <= n < 10 && n < t.matches && t.vec[2 * n] >= 0 ==> t.vec[2 * n] <= t.vec[2 * n + 1] <= |text|
  }

  /** The outcome of a search of a text from any start. */
  type Finder = nat -> Try

  predicate AllSane(find: Finder, text: seq<Byte>) { forall start: nat :: start <= |text| ==> Sane(find(start), start, text) }

  // ---------- Rewrite ----------

  /** The text appended, up to the first mistake in the rewrite string; ok if there is none. */
  datatype Rewritten = Rewritten(ok: bool, out: seq<Byte>)

  function Group(text: seq<Byte>, t: Try, n: nat): seq<Byte>
    requires n < 10 && n < t.matches && exists start: nat :: Sane(t, start, text)
  {
    if t.vec[2 * n] >= 0 then text[t.vec[2 * n]..t.vec[2 * n + 1]] else []
  }

  function RewriteFrom(rewrite: seq<Byte>, i: nat, text: seq<Byte>, t: Try): (r: Rewritten)
    requires i <= |rewrite| && t.matches > 0 && exists start: nat :: Sane(t, start, text)
    decreases |rewrite| - i
  {
    if i == |rewrite| then Rewritten(true, [])
    else if rewrite[i] != BACKSLASH then
      var r := RewriteFrom(rewrite, i + 1, text, t);
      Rewritten(r.ok, [rewrite[i]] + r.out)
    else if i + 1 == |rewrite| then Rewritten(false, [])
    else if IsDigit(rewrite[i + 1]) then
      if rewrite[i + 1] - 48 >= t.matches then Rewritten(false, [])
      else
        var r := RewriteFrom(rewrite, i + 2, text, t);
        Rewritten(r.ok, Group(text, t, rewrite[i + 1] - 48) + r.out)
    else if rewrite[i + 1] == BACKSLASH then
      var r := RewriteFrom(rewrite, i + 2, text, t);
      Rewritten(r.ok, [BACKSLASH] + r.out)
    else Rewritten(false, [])
  }

  /** RE::Rewrite appends to out; a backslash at the end counts as a mistake. */
  method Rewrite(out: seq<Byte>, rewrite: seq<Byte>, text: seq<Byte>, t: Try) returns (ok: bool, result: seq<Byte>)
    requires t.matches > 0 && exists start: nat :: Sane(t, start, text)
    ensures var r := RewriteFrom(rewrite, 0, text, t); ok == r.ok && result == out + r.out
  {
    hide Sane, RewriteFrom, Group;
    result := out;
    var s := 0;
    ghost var whole := RewriteFrom(rewrite, 0, text, t);
    while s < |rewrite|
      invariant s <= |rewrite|
      invariant var r := RewriteFrom(rewrite, s, text, t); whole.ok == r.ok && out + whole.out == result + r.out
    {
      RewriteStep(rewrite, s, text, t);
      var c, add: seq<Byte> := rewrite[s], [];
      if c == BACKSLASH {
        s := s + 1;
        if s == |rewrite| { return false, result; }
        c := rewrite[s];
        if IsDigit(c) {
          var n: nat := c as int - 48;
          if n >= t.matches { return false, result; }
          add := Group(text, t, n);
        } else if c == BACKSLASH {
          add := [BACKSLASH];
        } else {
          return false, result;
        }
      } else {
        add := [c];
      }
      ghost var rest := RewriteFrom(rewrite, s + 1, text, t).out;
      assert result + (add + rest) == (result + add) + rest;
      result := result + add;
      s := s + 1;
    }
    RewriteEnd(rewrite, text, t);
    ok := true;
  }

  lemma RewriteEnd(rewrite: seq<Byte>, text: seq<Byte>, t: Try)
    requires t.matches > 0 && exists start: nat :: Sane(t, start, text)
    ensures RewriteFrom(rewrite, |rewrite|, text, t) == Rewritten(true, [])
  {
  }

  lemma RewriteStep(rewrite: seq<Byte>, i: nat, text: seq<Byte>, t: Try)
    requires i < |rewrite| && t.matches > 0 && exists start: nat :: Sane(t, start, text)
    ensures var two := rewrite[i] == BACKSLASH;
      var c := if i + 1 < |rewrite| then rewrite[i + 1] else 0;
      var r := RewriteFrom(rewrite, i, text, t);
      if two && (i + 1 == |rewrite| || !(c == BACKSLASH || (IsDigit(c) && c - 48 < t.matches))) then r == Rewritten(false, [])
      else
        var rest := RewriteFrom(rewrite, if two then i + 2 else i + 1, text, t);
        var add := if !two then [rewrite[i]] else if IsDigit(c) then Group(text, t, c - 48) else [BACKSLASH];
        r == Rewritten(rest.ok, add + rest.out)
  {
    hide Sane, Group;
  }

  // ---------- what a rewrite string says ----------

  /** A byte that stands for itself, a reference to a group, or a backslash. */
  datatype Part = Plain(c: Byte) | Ref(n: nat) | Slash

  /** A part that can be written, and refers to a group that there is. */
  predicate Usable(p: Part, t: Try) { (p.Plain? ==> p.c != BACKSLASH) && (p.Ref? ==> p.n < 10 && p.n < t.matches) }

  predicate AllUsable(ps: seq<Part>, t: Try) { forall i :: 0 <= i < |ps| ==> Usable(ps[i], t) }

  function PartBytes(p: Part): seq<Byte>
    requires p.Ref? ==> p.n < 10
  {
    match p
    case Plain(c) => [c]
    case Ref(n) => [BACKSLASH, 48 + n]
    case Slash => [BACKSLASH, BACKSLASH]
  }

  function Written(ps: seq<Part>, t: Try): seq<Byte>
    requires AllUsable(ps, t)
  {
    if ps == [] then []
    else
      assert Usable(ps[0], t);
      PartBytes(ps[0]) + Written(ps[1..], t)
  }

  /** w is the text of group n: empty if the group took no part. */
  predicate IsGroup(w: seq<Byte>, text: seq<Byte>, t: Try, n: nat) {
    2 * n + 1 < |t.vec| &&
    if t.vec[2 * n] < 0 then w == []
    else |w| == t.vec[2 * n + 1] - t.vec[2 * n] && forall k :: 0 <= k < |w| ==> t.vec[2 * n] + k < |text| && w[k] == text[t.vec[2 * n] + k]
  }

  /** w is what p adds to the output. */
  predicate Adds(p: Part, text: seq<Byte>, t: Try, w: seq<Byte>) {
    match p
    case Plain(c) => w == [c]
    case Ref(n) => IsGroup(w, text, t, n)
    case Slash => w == [BACKSLASH]
  }

  /** out is what the parts add, one after the other. */
  ghost predicate AddsAll(ps: seq<Part>, text: seq<Byte>, t: Try, out: seq<Byte>) {
    if ps == [] then out == []
    else exists k: nat :: k <= |out| && Adds(ps[0], text, t, out[..k]) && AddsAll(ps[1..], text, t, out[k..])
  }

  lemma {:induction false} RewriteDrop(rewrite: seq<Byte>, i: nat, j: nat, text: seq<Byte>, t: Try)
    requires i + j <= |rewrite| && t.matches > 0 && exists start: nat :: Sane(t, start, text)
    ensures RewriteFrom(rewrite, i + j, text, t) == RewriteFrom(rewrite[i..], j, text, t)
    decreases |rewrite| - j
  {
    hide Sane, Group;
    if i + j < |rewrite| {
      if i + j + 1 <= |rewrite| { RewriteDrop(rewrite, i, j + 1, text, t); }
      if i + j + 2 <= |rewrite| { RewriteDrop(rewrite, i, j + 2, text, t); }
      assert rewrite[i..][j] == rewrite[i + j];
      assert i + j + 1 == i + (j + 1) && i + j + 2 == i + (j + 2);
    }
  }

  lemma GroupIs(text: seq<Byte>, t: Try, n: nat)
    requires n < 10 && n < t.matches && exists start: nat :: Sane(t, start, text)
    ensures IsGroup(Group(text, t, n), text, t, n)
  {
  }

  function Added(p: Part, text: seq<Byte>, t: Try): (w: seq<Byte>)
    requires Usable(p, t) && exists start: nat :: Sane(t, start, text)
    ensures Adds(p, text, t, w)
  {
    match p
    case Plain(c) => [c]
    case Ref(n) =>
      GroupIs(text, t, n);
      Group(text, t, n)
    case Slash => [BACKSLASH]
  }

  lemma WrittenCons(p: Part, ps: seq<Part>, t: Try)
    requires Usable(p, t) && AllUsable(ps, t)
    ensures AllUsable([p] + ps, t) && Written([p] + ps, t) == PartBytes(p) + Written(ps, t)
  {
    assert ([p] + ps)[1..] == ps;
  }

  lemma AddsCons(p: Part, ps: seq<Part>, text: seq<Byte>, t: Try, add: seq<Byte>, more: seq<Byte>)
    requires Adds(p, text, t, add) && AddsAll(ps, text, t, more)
    ensures AddsAll([p] + ps, text, t, add + more)
  {
    hide Adds;
    var out := add + more;
    assert ([p] + ps)[1..] == ps && out[..|add|] == add && out[|add|..] == more;
  }

  /** One part is read back. */
  lemma PartReads(p: Part, rest: seq<Byte>, text: seq<Byte>, t: Try)
    requires t.matches > 0 && (exists start: nat :: Sane(t, start, text)) && Usable(p, t)
    ensures var r := RewriteFrom(rest, 0, text, t);
      RewriteFrom(PartBytes(p) + rest, 0, text, t) == Rewritten(r.ok, Added(p, text, t) + r.out)
  {
    hide Sane, Group, RewriteFrom;
    var bytes := PartBytes(p);
    var all := bytes + rest;
    assert all[|bytes|..] == rest && all[0] == bytes[0] && (|bytes| > 1 ==> all[1] == bytes[1]);
    RewriteStep(all, 0, text, t);
    RewriteDrop(all, |bytes|, 0, text, t);
  }

  lemma FirstPart(rewrite: seq<Byte>, text: seq<Byte>, t: Try) returns (p: Part)
    requires t.matches > 0 && (exists start: nat :: Sane(t, start, text)) && rewrite != [] && RewriteFrom(rewrite, 0, text, t).ok
    ensures Usable(p, t) && |PartBytes(p)| <= |rewrite| && rewrite[..|PartBytes(p)|] == PartBytes(p)
  {
    hide Sane, Group, RewriteFrom;
    RewriteStep(rewrite, 0, text, t);
    p := if rewrite[0] != BACKSLASH then Plain(rewrite[0]) else if IsDigit(rewrite[1]) then Ref(rewrite[1] - 48) else Slash;
  }

  /** A rewrite string without a mistake, in parts: the output is what they add. */
  lemma {:induction false} RewriteParts(rewrite: seq<Byte>, text: seq<Byte>, t: Try) returns (ps: seq<Part>)
    requires t.matches > 0 && (exists start: nat :: Sane(t, start, text)) && RewriteFrom(rewrite, 0, text, t).ok
    ensures AllUsable(ps, t) && Written(ps, t) == rewrite && AddsAll(ps, text, t, RewriteFrom(rewrite, 0, text, t).out)
    decreases |rewrite|
  {
    if rewrite == [] {
      ps := [];
    } else {
      hide Sane, Adds, AddsAll, RewriteFrom, Written, Usable, Added, PartBytes;
      var p := FirstPart(rewrite, text, t);
      PartLength(p, t);
      var len := |PartBytes(p)|;
      PartReads(p, rewrite[len..], text, t);
      assert rewrite == PartBytes(p) + rewrite[len..];
      var rest := RewriteParts(rewrite[len..], text, t);
      ps := [p] + rest;
      WrittenCons(p, rest, t);
      AddsCons(p, rest, text, t, Added(p, text, t), RewriteFrom(rewrite[len..], 0, text, t).out);
    }
  }

  lemma PartLength(p: Part, t: Try)
    requires Usable(p, t)
    ensures |PartBytes(p)| > 0
  {
  }

  /** Every list of usable parts, written down, is read back as these parts: the rest of the
      string comes after what they add. So \0 to \9 stand for the groups, \\ for a backslash,
      and any other byte for itself. */
  lemma {:induction false} PartsRead(ps: seq<Part>, rest: seq<Byte>, text: seq<Byte>, t: Try) returns (out: seq<Byte>)
    requires t.matches > 0 && (exists start: nat :: Sane(t, start, text)) && AllUsable(ps, t)
    ensures AddsAll(ps, text, t, out)
    ensures var r := RewriteFrom(rest, 0, text, t); RewriteFrom(Written(ps, t) + rest, 0, text, t) == Rewritten(r.ok, out + r.out)
    decreases |ps|
  {
    hide Sane, RewriteFrom, Adds, Added;
    if ps == [] {
      out := [];
      assert Written(ps, t) + rest == rest;
    } else {
      var p, tail := ps[0], ps[1..];
      assert Usable(p, t) && ps == [p] + tail;
      hide Written, Usable, PartBytes, AddsAll;
      var more := PartsRead(tail, rest, text, t);
      WrittenCons(p, tail, t);
      PartReads(p, Written(tail, t) + rest, text, t);
      assert PartBytes(p) + (Written(tail, t) + rest) == Written(ps, t) + rest;
      var add := Added(p, text, t);
      AddsCons(p, tail, text, t, add, more);
      out := add + more;
      assert add + (more + RewriteFrom(rest, 0, text, t).out) == out + RewriteFrom(rest, 0, text, t).out;
    }
  }

  /** The mistakes: a backslash at the end, before anything but a digit or a backslash, or
      before the number of a group that there is not. */
  lemma MistakeReads(rest: seq<Byte>, text: seq<Byte>, t: Try)
    requires t.matches > 0 && (exists start: nat :: Sane(t, start, text)) && rest != [] && rest[0] == BACKSLASH
    requires |rest| == 1 || (rest[1] != BACKSLASH && !(48 <= rest[1] <= 57)) || 48 + t.matches <= rest[1] <= 57
    ensures RewriteFrom(rest, 0, text, t) == Rewritten(false, [])
  {
    hide Sane, Group;
  }

  // ---------- GlobalReplace ----------

  /** A stretch of the text: copied, or matched and rewritten. */
  datatype Piece = Kept(lo: nat, hi: nat) | Match(lo: nat, hi: nat, t: Try)

  /** The place after the character at start: past CR LF where that is a newline, and past
      the bytes that continue a UTF-8 character. */
  function After(text: seq<Byte>, start: nat, crlf: bool, utf8: bool): (e: nat)
    ensures e > start && (start < |text| ==> e <= |text|) && (start >= |text| ==> e == start + 1)
  {
    var e := if crlf && start + 1 < |text| && text[start] == 13 && text[start + 1] == 10 then start + 2 else start + 1;
    if utf8 then Skip(text, e) else e
  }

  function Skip(text: seq<Byte>, e: nat): (e': nat)
    ensures e <= e' && (e <= |text| ==> e' <= |text|) && (e > |text| ==> e' == e)
    decreases |text| - e
  {
    if e < |text| && 0x80 <= text[e] < 0xc0 then Skip(text, e + 1) else e
  }

  /** The pieces of the text from start on, when the last match ended at lastend. */
  function Pieces(find: Finder, text: seq<Byte>, crlf: bool, utf8: bool, start: nat, lastend: int): (ps: seq<Piece>)
    requires AllSane(find, text)
    decreases |text| + 1 - start, if start == lastend then 0 else 1
  {
    if start > |text| then []
    else
      var t := find(start);
      assert Sane(t, start, text);
      if t.matches == 0 then (if start < |text| then [Kept(start, |text|)] else [])
      else if t.vec[0] == t.vec[1] == lastend then
        var e := After(text, start, crlf, utf8);
        (if e <= |text| then [Kept(start, e)] else []) + Pieces(find, text, crlf, utf8, e, lastend)
      else [Kept(start, t.vec[0]), Match(t.vec[0], t.vec[1], t)] + Pieces(find, text, crlf, utf8, t.vec[1], t.vec[1])
  }

  ghost predicate Fits(p: Piece, text: seq<Byte>) {
    p.lo <= p.hi <= |text| &&
    (p.Match? ==> p.t.matches > 0 && |p.t.vec| >= 2 && p.lo == p.t.vec[0] && p.hi == p.t.vec[1] && exists start: nat :: Sane(p.t, start, text))
  }

  ghost predicate AllFit(ps: seq<Piece>, text: seq<Byte>) { forall i :: 0 <= i < |ps| ==> Fits(ps[i], text) }

  /** What a piece becomes. A mistake in the rewrite string is not reported. */
  ghost function PieceOut(p: Piece, rewrite: seq<Byte>, text: seq<Byte>): seq<Byte>
    requires Fits(p, text)
  {
    if p.Kept? then text[p.lo..p.hi] else RewriteFrom(rewrite, 0, text, p.t).out
  }

  ghost function Output(ps: seq<Piece>, rewrite: seq<Byte>, text: seq<Byte>): seq<Byte>
    requires AllFit(ps, text)
  {
    if ps == [] then [] else PieceOut(ps[0], rewrite, text) + Output(ps[1..], rewrite, text)
  }

  function Matches(ps: seq<Piece>): nat { if ps == [] then 0 else (if ps[0].Match? then 1 else 0) + Matches(ps[1..]) }

  /** The pieces follow each other without a gap from lo to hi. */
  predicate Covers(ps: seq<Piece>, lo: nat, hi: nat) {
    if ps == [] then lo == hi else ps[0].lo == lo <= ps[0].hi <= hi && Covers(ps[1..], ps[0].hi, hi)
  }

  /** No match is empty where the match before it ended. */
  predicate Apart(ps: seq<Piece>, lastend: int) {
    ps == [] ||
    if ps[0].Kept? then Apart(ps[1..], lastend)
    else !(ps[0].lo == ps[0].hi == lastend) && lastend <= ps[0].lo && Apart(ps[1..], ps[0].hi)
  }

  lemma PiecesStep(p: Piece, ps: seq<Piece>)
    ensures ([p] + ps)[0] == p && ([p] + ps)[1..] == ps
  {
  }

  /** Nothing of the text is lost or used twice, and the matches are disjoint, from left
      to right. */
  lemma {:induction false} PiecesCover(find: Finder, text: seq<Byte>, crlf: bool, utf8: bool, start: nat, lastend: int)
    requires AllSane(find, text) && lastend <= start
    ensures var ps := Pieces(find, text, crlf, utf8, start, lastend);
      AllFit(ps, text) && Apart(ps, lastend) && (start <= |text| ==> Covers(ps, start, |text|)) && (start > |text| ==> ps == [])
    decreases |text| + 1 - start, if start == lastend then 0 else 1
  {
    if start <= |text| {
      var t := find(start);
      assert Sane(t, start, text);
      var ps := Pieces(find, text, crlf, utf8, start, lastend);
      if t.matches == 0 {
        assert start < |text| ==> ps[1..] == [];
      } else if t.vec[0] == t.vec[1] == lastend {
        var e := After(text, start, crlf, utf8);
        PiecesCover(find, text, crlf, utf8, e, lastend);
        if e <= |text| { PiecesStep(Kept(start, e), Pieces(find, text, crlf, utf8, e, lastend)); }
      } else {
        var m := Match(t.vec[0], t.vec[1], t);
        var rest := Pieces(find, text, crlf, utf8, t.vec[1], t.vec[1]);
        PiecesCover(find, text, crlf, utf8, t.vec[1], t.vec[1]);
        PiecesStep(m, rest);
        PiecesStep(Kept(start, t.vec[0]), [m] + rest);
        assert ps == [Kept(start, t.vec[0])] + ([m] + rest);
      }
    }
  }

  /** When every match is rewritten to itself, the text is what it was. */
  lemma {:induction false} OutputSame(ps: seq<Piece>, rewrite: seq<Byte>, text: seq<Byte>, lo: nat)
    requires AllFit(ps, text) && lo <= |text| && Covers(ps, lo, |text|)
    requires forall i :: 0 <= i < |ps| ==> PieceOut(ps[i], rewrite, text) == text[ps[i].lo..ps[i].hi]
    ensures Output(ps, rewrite, text) == text[lo..]
    decreases |ps|
  {
    hide PieceOut, Fits;
    if ps != [] {
      OutputSame(ps[1..], rewrite, text, ps[0].hi);
      CutText(text, lo, ps[0].hi);
    }
  }

  lemma CutText(text: seq<Byte>, lo: nat, hi: nat)
    requires lo <= hi <= |text|
    ensures text[lo..] == text[lo..hi] + text[hi..]
  {
  }

  /** The rewrite string \0. */
  const WHOLE: seq<Byte> := [BACKSLASH, 48]

  lemma WholeIsMatch(p: Piece, text: seq<Byte>)
    requires Fits(p, text)
    ensures PieceOut(p, WHOLE, text) == text[p.lo..p.hi]
  {
    if p.Match? {
      assert RewriteFrom(WHOLE, 2, text, p.t) == Rewritten(true, []);
      assert RewriteFrom(WHOLE, 0, text, p.t) == Rewritten(true, Group(text, p.t, 0) + []);
    }
  }

  /** Replacing every match by \0 changes nothing. */
  lemma ReplaceByWhole(find: Finder, text: seq<Byte>, crlf: bool, utf8: bool)
    requires AllSane(find, text)
    ensures var ps := Pieces(find, text, crlf, utf8, 0, -1);
      AllFit(ps, text) && Output(ps, WHOLE, text) == text
  {
    hide Sane, PieceOut;
    var ps := Pieces(find, text, crlf, utf8, 0, -1);
    PiecesCover(find, text, crlf, utf8, 0, -1);
    forall i | 0 <= i < |ps| ensures PieceOut(ps[i], WHOLE, text) == text[ps[i].lo..ps[i].hi] { WholeIsMatch(ps[i], text); }
    OutputSame(ps, WHOLE, text, 0);
  }

  /** Without a match nothing changes either. */
  lemma {:induction false} NoMatches(ps: seq<Piece>, i: nat)
    requires Matches(ps) == 0 && i < |ps|
    ensures ps[i].Kept?
    decreases |ps|
  {
    if i > 0 { NoMatches(ps[1..], i - 1); }
  }

  lemma {:induction false} OutputAppend(ps: seq<Piece>, p: Piece, rewrite: seq<Byte>, text: seq<Byte>)
    requires AllFit(ps + [p], text)
    ensures AllFit(ps, text) && Fits(p, text)
    ensures Output(ps + [p], rewrite, text) == Output(ps, rewrite, text) + PieceOut(p, rewrite, text)
    ensures Matches(ps + [p]) == Matches(ps) + if p.Match? then 1 else 0
    decreases |ps|
  {
    hide Fits, PieceOut;
    AllFitSplit(ps, p, text);
    if ps == [] {
      assert [] + [p] == [p] && [p][1..] == [];
    } else {
      assert (ps + [p])[1..] == ps[1..] + [p];
      OutputAppend(ps[1..], p, rewrite, text);
      assert ps == [ps[0]] + ps[1..];
    }
  }

  lemma AllFitSplit(ps: seq<Piece>, p: Piece, text: seq<Byte>)
    requires AllFit(ps + [p], text)
    ensures AllFit(ps, text) && Fits(p, text) && (ps != [] ==> AllFit(ps[1..] + [p], text) && AllFit(ps[1..], text))
  {
    hide Fits;
    var all := ps + [p];
    assert all[|ps|] == p;
    forall i | 0 <= i < |ps| ensures Fits(ps[i], text) { assert all[i] == ps[i]; }
    if ps != [] {
      var less := ps[1..] + [p];
      forall i | 0 <= i < |less| ensures Fits(less[i], text) { assert less[i] == all[i + 1]; }
    }
  }

  lemma KeepOnly(ps: seq<Piece>, rewrite: seq<Byte>, text: seq<Byte>)
    requires AllFit(ps, text) && Covers(ps, 0, |text|) && Matches(ps) == 0
    ensures Output(ps, rewrite, text) == text
  {
    forall i | 0 <= i < |ps| ensures PieceOut(ps[i], rewrite, text) == text[ps[i].lo..ps[i].hi] { NoMatches(ps, i); }
    OutputSame(ps, rewrite, text, 0);
  }

  /** A C++ string that is changed in place. */
  class Text {
    var s: seq<Byte>

    constructor (s: seq<Byte>)
      ensures this.s == s
    {
      this.s := s;
    }
  }

  /** RE::GlobalReplace: every piece of the text is copied or rewritten, and the matches
      are counted. It ends because each search begins further on, or at the same place
      after a match there. */
  method GlobalReplace(find: Finder, rewrite: seq<Byte>, str: Text, crlf: bool, utf8: bool) returns (count: nat)
    requires AllSane(find, str.s)
    modifies str
    ensures var ps := Pieces(find, old(str.s), crlf, utf8, 0, -1);
      AllFit(ps, old(str.s)) && count == Matches(ps) && str.s == Output(ps, rewrite, old(str.s))
  {
    hide Fits, PieceOut, Output, AllFit, AllSane, Sane, Covers, Matches, Pieces, RewriteFrom;
    ghost var text, all := str.s, Pieces(find, str.s, crlf, utf8, 0, -1);
    PiecesCover(find, text, crlf, utf8, 0, -1);
    ghost var done: seq<Piece> := [];
    Nothing(rewrite, text);
    var out: seq<Byte>, start: nat, lastend: int := [], 0, -1;
    count := 0;
    var more := true;
    while more && start <= |str.s|
      invariant str.s == text && lastend <= start && AllFit(all, text)
      invariant AllFit(done, text) && out == Output(done, rewrite, text) && count == Matches(done)
      invariant all == done + Pieces(find, text, crlf, utf8, start, lastend)
      invariant !more ==> start <= |text| && find(start).matches == 0
      decreases more, |text| + 1 - start, if start == lastend then 0 else 1
    {
      SaneAt(find, text, start);
      var t := find(start);
      if t.matches == 0 {
        more := false;
      } else {
        var ms: nat, me: nat := t.vec[0], t.vec[1];
        if ms == me == lastend {
          var e := After(str.s, start, crlf, utf8);
          Skipped(find, text, crlf, utf8, start, lastend, done);
          if e <= |str.s| {
            out := out + str.s[start..e];
            done := KeepStep(done, rewrite, text, start, e);
          }
          start := e;
        } else {
          Taken(find, text, crlf, utf8, start, lastend, done);
          out := out + str.s[start..ms];
          done := KeepStep(done, rewrite, text, start, ms);
          var ok;
          ok, out := Rewrite(out, rewrite, str.s, t);
          done := MatchStep(done, rewrite, text, start, t);
          start, lastend, count := me, me, count + 1;
        }
      }
    }
    if count == 0 {
      Unchanged(find, rewrite, text, crlf, utf8, done, all, start, lastend);
      return;
    }
    Ended(find, text, crlf, utf8, start, lastend, done);
    if start < |str.s| {
      out := out + str.s[start..];
      done := KeepStep(done, rewrite, text, start, |text|);
      assert text[start..|text|] == text[start..];
    }
    str.s := out;
  }

  /** The three ways in which a search goes on from the pieces that are done. */
  lemma Skipped(find: Finder, text: seq<Byte>, crlf: bool, utf8: bool, start: nat, lastend: int, done: seq<Piece>)
    requires AllSane(find, text) && start <= |text| && find(start).matches > 0 && Sane(find(start), start, text)
    requires find(start).vec[0] == find(start).vec[1] == lastend
    ensures var e := After(text, start, crlf, utf8);
      done + Pieces(find, text, crlf, utf8, start, lastend) ==
        (if e <= |text| then done + [Kept(start, e)] else done) + Pieces(find, text, crlf, utf8, e, lastend)
  {
  }

  lemma Taken(find: Finder, text: seq<Byte>, crlf: bool, utf8: bool, start: nat, lastend: int, done: seq<Piece>)
    requires AllSane(find, text) && start <= |text| && find(start).matches > 0 && Sane(find(start), start, text)
    requires !(find(start).vec[0] == find(start).vec[1] == lastend)
    ensures var t := find(start);
      done + Pieces(find, text, crlf, utf8, start, lastend) ==
        ((done + [Kept(start, t.vec[0])]) + [Match(t.vec[0], t.vec[1], t)]) + Pieces(find, text, crlf, utf8, t.vec[1], t.vec[1])
  {
  }

  lemma Ended(find: Finder, text: seq<Byte>, crlf: bool, utf8: bool, start: nat, lastend: int, done: seq<Piece>)
    requires AllSane(find, text) && (start <= |text| ==> find(start).matches == 0)
    ensures done + Pieces(find, text, crlf, utf8, start, lastend) == if start < |text| then done + [Kept(start, |text|)] else done
  {
  }

  lemma SaneAt(find: Finder, text: seq<Byte>, start: nat)
    requires AllSane(find, text) && start <= |text|
    ensures var t := find(start);
      t.matches > 0 ==> |t.vec| >= 20 && start <= t.vec[0] <= t.vec[1] <= |text| && Sane(t, start, text)
  {
  }

  lemma Nothing(rewrite: seq<Byte>, text: seq<Byte>)
    ensures AllFit([], text) && Output([], rewrite, text) == [] && Matches([]) == 0
  {
  }

  lemma KeepStep(done: seq<Piece>, rewrite: seq<Byte>, text: seq<Byte>, lo: nat, hi: nat) returns (now: seq<Piece>)
    requires AllFit(done, text) && lo <= hi <= |text|
    ensures now == done + [Kept(lo, hi)] && AllFit(now, text) && Matches(now) == Matches(done)
    ensures Output(now, rewrite, text) == Output(done, rewrite, text) + text[lo..hi]
  {
    now := done + [Kept(lo, hi)];
    assert Fits(Kept(lo, hi), text);
    OutputAppend(done, Kept(lo, hi), rewrite, text);
  }

  lemma MatchStep(done: seq<Piece>, rewrite: seq<Byte>, text: seq<Byte>, start: nat, t: Try) returns (now: seq<Piece>)
    requires AllFit(done, text) && t.matches > 0 && Sane(t, start, text)
    ensures now == done + [Match(t.vec[0], t.vec[1], t)] && AllFit(now, text) && Matches(now) == Matches(done) + 1
    ensures Output(now, rewrite, text) == Output(done, rewrite, text) + RewriteFrom(rewrite, 0, text, t).out
  {
    var p := Match(t.vec[0], t.vec[1], t);
    now := done + [p];
    assert Fits(p, text);
    OutputAppend(done, p, rewrite, text);
  }

  lemma Unchanged(find: Finder, rewrite: seq<Byte>, text: seq<Byte>, crlf: bool, utf8: bool, done: seq<Piece>, all: seq<Piece>, start: nat, lastend: int)
    requires AllSane(find, text) && AllFit(done, text) && Matches(done) == 0 && all == Pieces(find, text, crlf, utf8, 0, -1)
    requires all == done + Pieces(find, text, crlf, utf8, start, lastend) && (start <= |text| ==> find(start).matches == 0)
    ensures AllFit(all, text) && Matches(all) == 0 && Output(all, rewrite, text) == text
  {
    PiecesCover(find, text, crlf, utf8, 0, -1);
    if start < |text| {
      OutputAppend(done, Kept(start, |text|), rewrite, text);
    } else {
      assert all == done;
    }
    KeepOnly(all, rewrite, text);
  }
}
