/** GlobalReplace passes over no match. */
module Successive {
  import opened Bytes
  import opened Replace

  // ---------- characters ----------

  /** p does not lie inside a character: between CR and LF where they are one newline, or
      before a byte that continues a UTF-8 character. */
  predicate Boundary(text: seq<Byte>, p: nat, crlf: bool, utf8: bool) {
    !(crlf && 0 < p < |text| && text[p - 1] == 13 && text[p] == 10) && !(utf8 && p < |text| && 128 <= text[p] < 192)
  }

  /** One step leads to the next boundary. */
  lemma AfterIsNext(text: seq<Byte>, start: nat, crlf: bool, utf8: bool)
    requires start < |text|
    ensures var e := After(text, start, crlf, utf8);
      start < e <= |text| && Boundary(text, e, crlf, utf8) && forall p :: start < p < e ==> !Boundary(text, p, crlf, utf8)
  {
    var e := if crlf && start + 1 < |text| && text[start] == 13 && text[start + 1] == 10 then start + 2 else start + 1;
    SkipTail(text, e);
  }

  lemma {:induction false} SkipTail(text: seq<Byte>, e: nat)
    requires e <= |text|
    ensures forall p :: e <= p < Skip(text, e) ==> 128 <= text[p] < 192
    ensures Skip(text, e) < |text| ==> !(128 <= text[Skip(text, e)] < 192)
    decreases |text| - e
  {
    if e < |text| && 128 <= text[e] < 192 { SkipTail(text, e + 1); }
  }

  // ---------- what a search must find ----------

  /** The match that begins at a place, if there is one. */
  type Here = nat -> Try

  /** A search finds the match at the first place that has one. */
  ghost predicate FindsFirst(find: Finder, here: Here, text: seq<Byte>) {
    forall start: nat :: start <= |text| ==> IsFirst(here, text, start, find(start))
  }

  ghost predicate IsFirst(here: Here, text: seq<Byte>, start: nat, t: Try) {
    if t.matches == 0 then None(here, start, |text| + 1)
    else |t.vec| >= 2 && start <= t.vec[0] <= |text| && t == here(t.vec[0]) && None(here, start, t.vec[0])
  }

  ghost predicate None(here: Here, lo: nat, hi: nat) { forall p: nat :: lo <= p < hi ==> here(p).matches == 0 }

  predicate EmptyAt(here: Here, p: int) {
    p >= 0 && here(p).matches > 0 && |here(p).vec| >= 2 && here(p).vec[0] == here(p).vec[1] == p
  }

  /** Where the last match has ended, at last, an empty match does not count, nor does one
      that begins inside the character there. */
  ghost predicate Void(here: Here, text: seq<Byte>, crlf: bool, utf8: bool, last: int, p: nat) {
    EmptyAt(here, last) && last <= p && forall q: nat :: last < q <= p ==> !Boundary(text, q, crlf, utf8)
  }

  /** t is the first match from lo on that counts. */
  ghost predicate IsNext(here: Here, text: seq<Byte>, crlf: bool, utf8: bool, lo: nat, last: int, t: Try) {
    t.matches > 0 && |t.vec| >= 2 && lo <= t.vec[0] <= t.vec[1] <= |text| && t == here(t.vec[0]) &&
    !Void(here, text, crlf, utf8, last, t.vec[0]) &&
    forall p: nat :: lo <= p < t.vec[0] && here(p).matches > 0 ==> Void(here, text, crlf, utf8, last, p)
  }

  /** Each of ts is the first match that counts from the end of the one before, and none
      is left after the last. */
  ghost predicate Successive(here: Here, text: seq<Byte>, crlf: bool, utf8: bool, lo: nat, last: int, ts: seq<Try>)
    decreases |ts|
  {
    if ts == [] then forall p: nat :: lo <= p <= |text| && here(p).matches > 0 ==> Void(here, text, crlf, utf8, last, p)
    else
      IsNext(here, text, crlf, utf8, lo, last, ts[0]) &&
      Successive(here, text, crlf, utf8, ts[0].vec[1], ts[0].vec[1], ts[1..])
  }

  /** There is one such list only. */
  lemma {:induction false} OneList(here: Here, text: seq<Byte>, crlf: bool, utf8: bool, lo: nat, last: int, ts: seq<Try>, ts': seq<Try>)
    requires Successive(here, text, crlf, utf8, lo, last, ts) && Successive(here, text, crlf, utf8, lo, last, ts')
    ensures ts == ts'
    decreases |ts|
  {
    hide Void;
    if ts != [] && ts' != [] {
      assert ts[0].vec[0] == ts'[0].vec[0];
      OneList(here, text, crlf, utf8, ts[0].vec[1], ts[0].vec[1], ts[1..], ts'[1..]);
      assert ts == [ts[0]] + ts[1..] && ts' == [ts'[0]] + ts'[1..];
    }
  }

  // ---------- what GlobalReplace finds ----------

  function Found(ps: seq<Piece>): seq<Try> {
    if ps == [] then [] else (if ps[0].Match? then [ps[0].t] else []) + Found(ps[1..])
  }

  lemma FoundKept(lo: nat, hi: nat, ps: seq<Piece>)
    ensures Found([Kept(lo, hi)] + ps) == Found(ps)
  {
    PiecesStep(Kept(lo, hi), ps);
  }

  lemma FoundMatch(lo: nat, hi: nat, m: Piece, ps: seq<Piece>)
    requires m.Match?
    ensures Found([Kept(lo, hi), m] + ps) == [m.t] + Found(ps)
  {
    assert [Kept(lo, hi), m] + ps == [Kept(lo, hi)] + ([m] + ps);
    FoundKept(lo, hi, [m] + ps);
    PiecesStep(m, ps);
  }

  /** The count that GlobalReplace returns is theirs. */
  lemma {:induction false} FoundCount(ps: seq<Piece>)
    ensures |Found(ps)| == Matches(ps)
    decreases |ps|
  {
    if ps != [] { FoundCount(ps[1..]); }
  }

  /** The matches that are rewritten are these successive ones, from the start of the text. */
  lemma {:induction false} NonePassedOver(find: Finder, here: Here, text: seq<Byte>, crlf: bool, utf8: bool, start: nat, lastend: int)
    requires AllSane(find, text) && FindsFirst(find, here, text) && start <= |text| && (lastend < 0 || lastend == start)
    ensures Successive(here, text, crlf, utf8, start, lastend, Found(Pieces(find, text, crlf, utf8, start, lastend)))
    decreases |text| + 1 - start, if start == lastend then 1 else 2
  {
    hide Void, Boundary, Pieces;
    var t := find(start);
    SaneAt(find, text, start);
    assert IsFirst(here, text, start, t);
    PiecesAre(find, text, crlf, utf8, start, lastend);
    if t.matches > 0 && !(t.vec[0] == t.vec[1] == lastend) {
      Fresh(find, here, text, crlf, utf8, start, lastend);
      FoundMatch(start, t.vec[0], Match(t.vec[0], t.vec[1], t), Pieces(find, text, crlf, utf8, t.vec[1], t.vec[1]));
      NonePassedOver(find, here, text, crlf, utf8, t.vec[1], t.vec[1]);
    } else if t.matches > 0 {
      PastEmpty(find, here, text, crlf, utf8, start);
    }
  }

  lemma PiecesAre(find: Finder, text: seq<Byte>, crlf: bool, utf8: bool, start: nat, lastend: int)
    requires AllSane(find, text) && start <= |text|
    ensures var t, e := find(start), After(text, start, crlf, utf8);
      t.matches > 0 ==> |t.vec| >= 2 && start <= t.vec[0] <= t.vec[1] <= |text|
    ensures var t, e, ps := find(start), After(text, start, crlf, utf8), Pieces(find, text, crlf, utf8, start, lastend);
      if t.matches == 0 then Found(ps) == []
      else if t.vec[0] == t.vec[1] == lastend then Found(ps) == Found(Pieces(find, text, crlf, utf8, e, lastend))
      else ps == [Kept(start, t.vec[0]), Match(t.vec[0], t.vec[1], t)] + Pieces(find, text, crlf, utf8, t.vec[1], t.vec[1])
  {
    SaneAt(find, text, start);
    var t, e := find(start), After(text, start, crlf, utf8);
    FoundKept(start, e, Pieces(find, text, crlf, utf8, e, lastend));
    assert [] + Pieces(find, text, crlf, utf8, e, lastend) == Pieces(find, text, crlf, utf8, e, lastend);
    FoundKept(start, |text|, []);
    assert [Kept(start, |text|)] + [] == [Kept(start, |text|)];
  }

  /** A match at start counts, unless it is empty and the last one has ended there. */
  lemma Fresh(find: Finder, here: Here, text: seq<Byte>, crlf: bool, utf8: bool, start: nat, lastend: int)
    requires AllSane(find, text) && FindsFirst(find, here, text) && start <= |text| && (lastend < 0 || lastend == start)
    requires var t := find(start); t.matches > 0 && !(t.vec[0] == t.vec[1] == lastend)
    ensures IsNext(here, text, crlf, utf8, start, lastend, find(start))
  {
    var t := find(start);
    SaneAt(find, text, start);
    assert IsFirst(here, text, start, t);
  }

  /** Past an empty match at start, where the last one has ended. */
  lemma {:induction false} PastEmpty(find: Finder, here: Here, text: seq<Byte>, crlf: bool, utf8: bool, start: nat)
    requires AllSane(find, text) && FindsFirst(find, here, text) && start <= |text|
    requires var t := find(start); t.matches > 0 && |t.vec| >= 2 && t.vec[0] == t.vec[1] == start
    ensures var e := After(text, start, crlf, utf8);
      Successive(here, text, crlf, utf8, start, start, Found(Pieces(find, text, crlf, utf8, e, start)))
    decreases |text| + 1 - start, 0
  {
    hide Boundary, Pieces;
    assert IsFirst(here, text, start, find(start)) && EmptyAt(here, start);
    var e := After(text, start, crlf, utf8);
    if start == |text| {
      NoPieces(find, text, crlf, utf8, e, start);
      assert Void(here, text, crlf, utf8, start, start);
    } else {
      AfterIsNext(text, start, crlf, utf8);
      var t := find(e);
      SaneAt(find, text, e);
      assert IsFirst(here, text, e, t);
      PiecesAre(find, text, crlf, utf8, e, start);
      forall p: nat | start <= p < e ensures Void(here, text, crlf, utf8, start, p) { }
      if t.matches > 0 {
        FoundMatch(e, t.vec[0], Match(t.vec[0], t.vec[1], t), Pieces(find, text, crlf, utf8, t.vec[1], t.vec[1]));
        assert !Void(here, text, crlf, utf8, start, t.vec[0]);
        NonePassedOver(find, here, text, crlf, utf8, t.vec[1], t.vec[1]);
      }
    }
  }

  lemma NoPieces(find: Finder, text: seq<Byte>, crlf: bool, utf8: bool, start: nat, lastend: int)
    requires AllSane(find, text) && start > |text|
    ensures Found(Pieces(find, text, crlf, utf8, start, lastend)) == []
  {
  }

  /** No match begins inside a stretch that is copied, but inside a character. */
  lemma {:induction false} KeptHoldsNone(find: Finder, here: Here, text: seq<Byte>, crlf: bool, utf8: bool, start: nat, lastend: int, i: nat, p: nat)
    requires AllSane(find, text) && FindsFirst(find, here, text)
    requires var ps := Pieces(find, text, crlf, utf8, start, lastend);
      i < |ps| && ps[i].Kept? && ps[i].lo < p < ps[i].hi && Boundary(text, p, crlf, utf8)
    ensures here(p).matches == 0
    decreases |text| + 1 - start, if start == lastend then 0 else 1
  {
    hide Boundary;
    if start <= |text| {
      var t, ps := find(start), Pieces(find, text, crlf, utf8, start, lastend);
      SaneAt(find, text, start);
      assert IsFirst(here, text, start, t);
      if t.matches > 0 {
        if t.vec[0] == t.vec[1] == lastend {
          var e := After(text, start, crlf, utf8);
          if start < |text| {
            AfterIsNext(text, start, crlf, utf8);
            if i > 0 { KeptHoldsNone(find, here, text, crlf, utf8, e, lastend, i - 1, p); }
          }
        } else if i > 1 {
          KeptHoldsNone(find, here, text, crlf, utf8, t.vec[1], t.vec[1], i - 2, p);
        }
      }
    }
  }
}
