/** pcre_exec: the search for the leftmost match, with its short cuts. */
module Exec {
  import opened Bytes
  import opened Code
  import opened Layout
  import opened Semantics
  import opened Shape
  import opened Machine
  import opened Simulation
  import opened Pattern
  import opened Lowering
  import opened Theorems
  import opened Termination
  import opened Emptiness
  import opened Language
  import opened Limits
  import opened Anchors
  import opened FirstByte
  import opened Leftmost
  import opened Study
  import Units
  import opened Bumpalong
  import opened Leftover
  import Overflow
  import Blame
  import Contents
  import Captures
  import M = Matcher

  function PatternInfo(b: Branch, more: Branches, nocase: bool, multiline: bool): Info
    requires ValidBranch(b, nocase) && ValidMore(more, nocase)
  {
    var g, f := Compile(b, more, nocase), ScanGroup(Whole(b, more), multiline, false);
    var anchored := LeadingGroup(g, OP_ALLANY, !multiline, true);
    Info(anchored,
         !anchored && !f.first.Must? && LeadingGroup(g, OP_ANY, true, false),
         if anchored || !f.first.Must? then NoByte else Uncase(f.first),
         if f.req.Must? && (!anchored || f.req.vary) then Uncase(f.req) else NoByte,
         Count(b) + CountMore(more))
  }

  lemma InfoIs(b: Branch, more: Branches, nocase: bool, multiline: bool)
    requires ValidBranch(b, nocase) && ValidMore(more, nocase)
    ensures var g, f := Compile(b, more, nocase), ScanGroup(Whole(b, more), multiline, false);
      var anchored := LeadingGroup(g, OP_ALLANY, !multiline, true);
      PatternInfo(b, more, nocase, multiline) ==
        Info(anchored, !anchored && !f.first.Must? && LeadingGroup(g, OP_ANY, true, false),
             if anchored || !f.first.Must? then NoByte else Uncase(f.first),
             if f.req.Must? && (!anchored || f.req.vary) then Uncase(f.req) else NoByte, Count(b) + CountMore(more))
  {
    hide Compile, ScanGroup, LeadingGroup, Uncase;
  }

  /** The end of pcre_compile2: anchoring, start of line, first and required byte. */
  method Analyse(code: seq<Byte>, b: Branch, more: Branches, nocase: bool, multiline: bool, bracount: nat) returns (info: Info)
    requires ValidBranch(b, nocase) && ValidMore(more, nocase) && |code| <= MAX_PATTERN_SIZE
    requires code == EncProgram(Compile(b, more, nocase)) && bracount == Count(b) + CountMore(more)
    requires ValidGroup(Compile(b, more, nocase), nocase)
    ensures info == PatternInfo(b, more, nocase, multiline)
  {
    hide Compile, EncGroup, ScanGroup, LeadingGroup, ValidGroup, EncProgram, Uncase, Count, CountMore, Has, ValidBranch, ValidMore, PatternInfo;
    InfoIs(b, more, nocase, multiline);
    ghost var g := Compile(b, more, nocase);
    ProgramAt(g);
    var scan := new ByteScan(multiline);
    var firstbyte, reqbyte := scan.Group(Whole(b, more));
    var first, startline := NoByte, false;
    var anchored := IsAnchored(code, 0, multiline, g, nocase);
    if !anchored {
      if firstbyte.Must? { first := Uncase(firstbyte); } else { startline := IsStartline(code, 0, g, nocase); }
    }
    var req := if reqbyte.Must? && (!anchored || reqbyte.vary) then Uncase(reqbyte) else NoByte;
    info := Info(anchored, startline, first, req, bracount);
  }

  // ---------- starts that are passed over ----------

  /** A bit map that no match contradicts. */
  ghost predicate StudyOk(c: Ctx, b: Branch, more: Branches, bits: Map) {
    forall vec: seq<int>, p: nat :: p <= |c.s| && !(p < |c.s| && bits[c.s[p]]) ==> NoneAt(c, b, more, vec, p)
  }

  ghost predicate Searching(c: Ctx, b: Branch, more: Branches, info: Info, study: Option<Map>) {
    Compilable(b, more, c.nocase) && info == PatternInfo(b, more, c.nocase, c.multiline) &&
    (study.Some? ==> StudyOk(c, b, more, study.value))
  }

  /** Starts from lo up to hi at which there is no match. */
  ghost predicate NoneIn(c: Ctx, b: Branch, more: Branches, vec: seq<int>, lo: nat, hi: nat) {
    hi <= |c.s| + 1 && forall p: nat :: lo <= p < hi ==> NoneAt(c, b, more, vec, p)
  }

  /** Not the first byte; */
  lemma NotFirst(c: Ctx, b: Branch, more: Branches, vec: seq<int>, info: Info, study: Option<Map>, p: nat)
    requires Searching(c, b, more, info, study) && p <= |c.s| && info.first.Must? && !(p < |c.s| && Hit(info.first, c.s[p]))
    ensures NoneAt(c, b, more, vec, p)
  {
    CompilableValid(b, more, c.nocase);
    hide NoneAt, ScanGroup, Compile, LeadingGroup, Compilable;
    if p < |c.s| { UncaseHits(ScanGroup(Whole(b, more), c.multiline, false).first, c.s[p]); }
    FirstRules(c, b, more, vec, p);
  }

  /** not in the map; */
  lemma NotInMap(c: Ctx, b: Branch, more: Branches, vec: seq<int>, info: Info, bits: Map, p: nat)
    requires Searching(c, b, more, info, Some(bits)) && p <= |c.s| && !(p < |c.s| && bits[c.s[p]])
    ensures NoneAt(c, b, more, vec, p)
  {
    hide NoneAt, PatternInfo, Compilable;
  }

  /** not at the start of a line; */
  lemma NotLine(c: Ctx, b: Branch, more: Branches, vec: seq<int>, info: Info, study: Option<Map>, p: nat)
    requires 0 < p <= |c.s| && c.s[p - 1] != NEWLINE && NoneAt(c, b, more, vec, p - 1)
    requires info.startline && Searching(c, b, more, info, study)
    ensures NoneAt(c, b, more, vec, p)
  {
    hide NoneAt, Searching, Compilable, LeadingGroup, Compile, Slippery, ValidBranch, ValidMore;
    SearchingLeads(c, b, more, info, study);
    Slippery1(c, p);
    SlideRules(c, b, more, vec, OP_ANY, true, false, p);
  }

  /** not the first start of an anchored pattern: no match there. */
  lemma NotAnchor(c: Ctx, b: Branch, more: Branches, vec: seq<int>, info: Info, study: Option<Map>, p: nat)
    requires Searching(c, b, more, info, study) && 0 < p <= |c.s| && info.anchored
    requires NoneAt(c, b, more, vec, p - 1)
    ensures NoneAt(c, b, more, vec, p)
  {
    hide NoneAt, Searching, Compilable, LeadingGroup, Compile, Slippery, ValidBranch, ValidMore;
    SearchingLeads(c, b, more, info, study);
    Slippery2(c, p);
    SlideRules(c, b, more, vec, OP_ALLANY, !c.multiline, true, p);
  }

  lemma Slippery1(c: Ctx, p: nat)
    requires 0 < p <= |c.s| && c.s[p - 1] != NEWLINE
    ensures Slippery(c, OP_ANY, true, p)
  {
  }

  lemma Slippery2(c: Ctx, p: nat)
    requires 0 < p <= |c.s|
    ensures Slippery(c, OP_ALLANY, !c.multiline, p)
  {
  }

  /** What the anchoring analyses found out. */
  ghost predicate Anchoring(c: Ctx, b: Branch, more: Branches, info: Info) {
    ValidBranch(b, c.nocase) && ValidMore(more, c.nocase) &&
    (info.startline ==> LeadingGroup(Compile(b, more, c.nocase), OP_ANY, true, false)) &&
    (info.anchored ==> LeadingGroup(Compile(b, more, c.nocase), OP_ALLANY, !c.multiline, true))
  }

  lemma SearchingLeads(c: Ctx, b: Branch, more: Branches, info: Info, study: Option<Map>)
    requires Searching(c, b, more, info, study)
    ensures Compilable(b, more, c.nocase) && Anchoring(c, b, more, info)
  {
    CompilableValid(b, more, c.nocase);
    hide ScanGroup, Compile, LeadingGroup, Compilable, StudyOk, Uncase;
  }

  lemma CompilableValid(b: Branch, more: Branches, nocase: bool)
    requires Compilable(b, more, nocase)
    ensures ValidBranch(b, nocase) && ValidMore(more, nocase)
  {
  }

  /** Stretches without a match, put together. */
  lemma NoneJoin(c: Ctx, b: Branch, more: Branches, vec: seq<int>, lo: nat, mid: nat, hi: nat)
    requires lo <= mid <= hi <= |c.s| + 1 && (lo == mid || NoneIn(c, b, more, vec, lo, mid))
    requires mid == hi || NoneIn(c, b, more, vec, mid, hi) || (hi == mid + 1 && NoneAt(c, b, more, vec, mid))
    ensures NoneIn(c, b, more, vec, lo, hi)
  {
    hide NoneAt;
  }

  lemma AdvanceStep(c: Ctx, info: Info, anchored: bool, study: Option<Map>, startOffset: nat, p: nat)
    requires p <= |c.s|
    ensures AdvanceTo(c, info, anchored, study, startOffset, p) ==
      if Skipped(c, info, anchored, study, startOffset, p) then AdvanceTo(c, info, anchored, study, startOffset, p + 1) else p
  {
  }

  /** No match begins between start0 and start, which is where the skips lead. */
  ghost predicate Advanced(c: Ctx, info: Info, anchored: bool, study: Option<Map>, startOffset: nat, start0: nat,
                           b: Branch, more: Branches, vec: seq<int>, start: nat) {
    start0 <= start <= |c.s| && NoneIn(c, b, more, vec, start0, start) &&
    start == AdvanceTo(c, info, anchored, study, startOffset, start0) &&
    (anchored && start0 == startOffset ==> start == start0)
  }

  /** Advance to a place where a match can begin. */
  method Advance(c: Ctx, info: Info, anchored: bool, study: Option<Map>, startOffset: nat, start0: nat,
                 ghost b: Branch, ghost more: Branches, ghost vec: seq<int>) returns (start: nat)
    requires Searching(c, b, more, info, study) && startOffset <= start0 <= |c.s|
    requires start0 > startOffset ==> NoneAt(c, b, more, vec, start0 - 1)
    ensures Advanced(c, info, anchored, study, startOffset, start0, b, more, vec, start)
  {
    hide NoneAt, NoneIn, Searching, AdvanceTo;
    start := start0;
    NoneJoin(c, b, more, vec, start, start, start);
    AdvanceStep(c, info, anchored, study, startOffset, start);
    if !anchored && info.first.Must? {
      var caseless, first := info.first.caseless, info.first.c;
      if caseless { first := Lcc(first); }
      while start < |c.s| && (if caseless then Lcc(c.s[start]) else c.s[start]) != first
        invariant start0 <= start <= |c.s| && NoneIn(c, b, more, vec, start0, start)
        invariant AdvanceTo(c, info, anchored, study, startOffset, start0) == AdvanceTo(c, info, anchored, study, startOffset, start)
      {
        NotFirst(c, b, more, vec, info, study, start);
        NoneJoin(c, b, more, vec, start0, start, start + 1);
        AdvanceStep(c, info, anchored, study, startOffset, start);
        start := start + 1;
      }
    } else if info.startline {
      if start > startOffset {
        while start < |c.s| && c.s[start - 1] != NEWLINE
          invariant start0 <= start <= |c.s| && NoneIn(c, b, more, vec, start0, start)
          invariant NoneAt(c, b, more, vec, start - 1)
          invariant AdvanceTo(c, info, anchored, study, startOffset, start0) == AdvanceTo(c, info, anchored, study, startOffset, start)
        {
          NotLine(c, b, more, vec, info, study, start);
          NoneJoin(c, b, more, vec, start0, start, start + 1);
          AdvanceStep(c, info, anchored, study, startOffset, start);
          start := start + 1;
        }
      }
    } else if !anchored && study.Some? {
      while start < |c.s| && !study.value[c.s[start]]
        invariant start0 <= start <= |c.s| && NoneIn(c, b, more, vec, start0, start)
        invariant AdvanceTo(c, info, anchored, study, startOffset, start0) == AdvanceTo(c, info, anchored, study, startOffset, start)
      {
        NotInMap(c, b, more, vec, info, study.value, start);
        NoneJoin(c, b, more, vec, start0, start, start + 1);
        AdvanceStep(c, info, anchored, study, startOffset, start);
        start := start + 1;
      }
    }
    AdvanceStep(c, info, anchored, study, startOffset, start);
  }

  /** Is the required byte nowhere ahead? reqPtr is where it was found last. */
  method ReqMissing(c: Ctx, info: Info, anchored: bool, start: nat, reqPtr0: int, ghost study: Option<Map>,
                    ghost b: Branch, ghost more: Branches, ghost vec: seq<int>)
    returns (missing: bool, reqPtr: int)
    requires Searching(c, b, more, info, study) && start <= |c.s|
    ensures missing ==> NoneIn(c, b, more, vec, start, |c.s| + 1)
    ensures (missing, reqPtr) == ReqScan(c, info, anchored, start, reqPtr0)
  {
    hide NoneAt, Searching;
    missing, reqPtr := false, reqPtr0;
    if info.req.Must? && |c.s| - start < REQ_BYTE_MAX {
      var lo := start + if !anchored && info.first.Must? then 1 else 0;
      if lo > reqPtr {
        var p, reqByte, reqByte2 := lo, info.req.c, Fcc(info.req.c);
        while p < |c.s| && !(c.s[p] == reqByte || (info.req.caseless && c.s[p] == reqByte2))
          invariant lo <= p && (p <= |c.s| || p == lo)
          invariant forall q :: lo <= q < p && q < |c.s| ==> !Hit(info.req, c.s[q])
          invariant FindReq(c, info.req, lo) == FindReq(c, info.req, p)
        {
          p := p + 1;
        }
        if p >= |c.s| {
          NoReq(c, b, more, vec, info, study, start, lo);
          return true, reqPtr;
        }
        reqPtr := p;
      }
    }
  }

  lemma NoReq(c: Ctx, b: Branch, more: Branches, vec: seq<int>, info: Info, study: Option<Map>, start: nat, lo: nat)
    requires Searching(c, b, more, info, study) && start <= |c.s| && info.req.Must?
    requires lo == start || (lo == start + 1 && info.first.Must?)
    requires forall q :: lo <= q < |c.s| ==> !Hit(info.req, c.s[q])
    ensures NoneIn(c, b, more, vec, start, |c.s| + 1)
  {
    hide NoneAt, Searching, ScanGroup, Hit;
    SearchReq(c, b, more, info, study);
    var f := ScanGroup(Whole(b, more), c.multiline, false);
    forall p: nat | start <= p < |c.s| + 1 ensures NoneAt(c, b, more, vec, p) {
      forall q | lo + (p - start) <= q < |c.s| ensures !Hit(f.req, c.s[q]) { UncaseHits(f.req, c.s[q]); }
      ReqRules(c, b, more, vec, p, lo + (p - start));
    }
  }

  lemma SearchReq(c: Ctx, b: Branch, more: Branches, info: Info, study: Option<Map>)
    requires Searching(c, b, more, info, study)
    ensures ValidBranch(b, c.nocase) && ValidMore(more, c.nocase)
    ensures var f := ScanGroup(Whole(b, more), c.multiline, false);
      (info.req.Must? ==> f.req.Must? && info.req == Uncase(f.req)) && (info.first.Must? ==> f.first.Must?)
  {
    hide ScanGroup, Compile, LeadingGroup, Compilable, StudyOk, Count, CountMore;
    CompilableValid(b, more, c.nocase);
  }

  // ---------- the search ----------

  method Clear(a: array<int>, n: nat)
    requires n <= a.Length
    modifies a
    ensures a[..] == Cleared(old(a[..]), n)
  {
    for i := 0 to n
      invariant forall k :: 0 <= k < a.Length ==> a[k] == if k < i then -1 else old(a[k])
    {
      a[i] := -1;
    }
  }

  /** st holds one of the ways of matching; the first, if the pattern is usable. */
  ghost predicate Finds(md: Md, st: State, b: Branch, more: Branches, ways: seq<Res>) {
    ways != [] && OneOf(md, st, ways) && (Usable(b, more, md.c.nocase) ==> Matched(md, st, ways[0]))
  }

  /** What a search must return: a way of matching at the leftmost start that has one.
      base holds the captures before a match. */
  ghost predicate Answer(md: Md, st: State, b: Branch, more: Branches, base: seq<int>, from: nat, forced: bool, rc: RC, start: nat) {
    match rc
    case MATCH =>
      from <= start <= |md.c.s| && md.mstart == start && (forced ==> start == from) &&
      NoneIn(md.c, b, more, base, from, start) &&
      Finds(md, st, b, more, WaysAt(md.c, b, more, base, start))
    case NOMATCH => NoneIn(md.c, b, more, base, from, if forced then from + 1 else |md.c.s| + 1)
    case MATCHLIMIT => true
    case RECURSIONLIMIT => true
    case _ => false
  }

  /** Limits that no call of match() can hit. */
  ghost predicate High(md: Md, b: Branch, more: Branches) {
    ValidBranch(b, md.c.nocase) && ValidMore(more, md.c.nocase) &&
    var g := Compile(b, more, md.c.nocase);
    forall p: nat :: p <= |md.c.s| ==> CallBound(|md.c.s|, g, p) <= md.limit && CallBound(|md.c.s|, g, p) <= md.rlimit
  }

  ghost predicate Prepared(md: Md, b: Branch, more: Branches) {
    Halting(b, more, md.c.nocase) && md.code == EncProgram(Compile(b, more, md.c.nocase)) && md.offsetEnd % 3 == 0
  }

  /** One call of match(). */
  lemma OneStart(md: Md, st: State, b: Branch, more: Branches)
    requires Prepared(md, b, more) && |st.vec| == md.offsetEnd && st.count == 0 && md.mstart <= |md.c.s|
    ensures var o, ways := Call(md, st, Begin(md), false), WaysAt(md.c, b, more, st.vec[..md.OffsetMax()], md.mstart);
      && o.rc in {MATCH, NOMATCH, MATCHLIMIT, RECURSIONLIMIT}
      && (o.rc == MATCH ==> Finds(md, o.st, b, more, ways))
      && (o.rc == NOMATCH ==> ways == [] && o.st.vec == st.vec)
      && (High(md, b, more) ==> !HitLimit(o))
      && (!HitLimit(o) && 2 * (Count(b) + CountMore(more)) < md.OffsetMax() ==> o.st.overflow == st.overflow)
  {
    hide Call, Matches, Filter, CallBound, Compile, EncProgram, Halting, Matched, OneOf, Usable, Count, CountMore;
    assert Running(md, st, b, more);
    MatchIsSome(md, st, b, more);
    if Usable(b, more, md.c.nocase) { LaunchedIs(md, st, b, more); MatchIsFirst(md, st, b, more); }
    if High(md, b, more) { MatchDecides(md, st, b, more); }
  }

  lemma LaunchedIs(md: Md, st: State, b: Branch, more: Branches)
    requires Running(md, st, b, more) && Usable(b, more, md.c.nocase)
    ensures Launched(md, st, b, more)
  {
    hide Usable, Halting, EncProgram, Compile;
  }

  lemma AnchoredElsewhere(c: Ctx, b: Branch, more: Branches, vec: seq<int>, info: Info, study: Option<Map>, from: nat, hi: nat)
    requires from < hi <= |c.s| + 1 && NoneAt(c, b, more, vec, from) && info.anchored && Searching(c, b, more, info, study)
    ensures NoneIn(c, b, more, vec, from, hi)
    decreases hi
  {
    hide NoneAt, Searching;
    if hi > from + 1 {
      AnchoredElsewhere(c, b, more, vec, info, study, from, hi - 1);
      NotAnchor(c, b, more, vec, info, study, hi - 1);
    }
  }

  /** match() at one start; vec holds the captures before it. */
  method TryAt(m: M.MatchData, at: nat, ghost b: Branch, ghost more: Branches, ghost base: seq<int>) returns (rc: RC)
    requires m.Valid() && Prepared(m.md, b, more) && at <= |m.md.c.s| && base == m.offsetVector[..][..m.md.OffsetMax()]
    modifies m, m.offsetVector
    ensures m.Valid() && m.md == old(m.md).(mstart := at) && rc in {MATCH, NOMATCH, MATCHLIMIT, RECURSIONLIMIT}
    ensures Out(rc, m.View()) == Call(m.md, old(m.View()).(count := 0), Begin(m.md), false)
    ensures rc == MATCH ==> Finds(m.md, m.View(), b, more, WaysAt(m.md.c, b, more, base, at))
    ensures rc in {MATCH, NOMATCH} && 2 * (Count(b) + CountMore(more)) < m.md.OffsetMax() ==> m.offsetOverflow == old(m.offsetOverflow)
    ensures rc == NOMATCH ==> NoneAt(m.md.c, b, more, base, at) && m.offsetVector[..] == old(m.offsetVector[..])
    ensures High(old(m.md), b, more) ==> rc == MATCH || rc == NOMATCH
  {
    hide NoneAt, Prepared, Finds, WaysAt, Call, High, Count, CountMore;
    m.md := m.md.(mstart := at);
    m.matchCallCount := 0;
    ghost var st := m.View();
    PreparedAt(old(m.md), at, b, more);
    OneStart(m.md, st, b, more);
    HighAt(old(m.md), at, b, more);
    rc := m.Match(Begin(m.md), false);
    if rc == NOMATCH { NoneHere(m.md.c, b, more, base, at); }
  }

  /** What the search has done: it is that of SearchFrom, it has the right answer, and
      with limits that are high enough it has one. */
  ghost predicate Searched(md: Md, st: State, md': Md, st': State, info: Info, forced: bool, startOffset: nat, resetCount: nat,
                           study: Option<Map>, b: Branch, more: Branches, rc: RC, start: nat) {
    Sized(md, st, resetCount) && startOffset <= |md.c.s| && md' == md.(mstart := md'.mstart) &&
    Answer(md', st', b, more, Cleared(st.vec, resetCount)[..md.OffsetMax()], startOffset, forced, rc, start) &&
    End(rc, start, st') == SearchFrom(md, st, info, forced, startOffset, resetCount, study, startOffset, startOffset - 1) &&
    (rc in {MATCH, NOMATCH} && 2 * (Count(b) + CountMore(more)) < md.OffsetMax() ==> st'.overflow == st.overflow) &&
    (High(md, b, more) ==> rc == MATCH || rc == NOMATCH)
  }

  /** The bumpalong loop: it finds the leftmost match, whatever it passes over. */
  method Search(m: M.MatchData, info: Info, forced: bool, startOffset: nat, resetCount: nat, study: Option<Map>,
                ghost b: Branch, ghost more: Branches)
    returns (rc: RC, start: nat)
    requires m.Valid() && Prepared(m.md, b, more) && Searching(m.md.c, b, more, info, study)
    requires startOffset <= |m.md.c.s| && resetCount <= m.md.offsetEnd
    modifies m, m.offsetVector
    ensures m.Valid() && Searched(old(m.md), old(m.View()), m.md, m.View(), info, forced, startOffset, resetCount, study, b, more, rc, start)
  {
    hide NoneAt, NoneIn, Searching, Prepared, Halting, Usable, Answer, Searched, Advanced, Finds, WaysAt, Call, Compile, High, Cleared, SearchFrom, AdvanceTo, ReqScan, Count, CountMore, EncProgram, CallBound, PatternInfo;
    ghost var md, st := m.md, m.View();
    var c, anchored := m.md.c, info.anchored || forced;
    ghost var vec := Cleared(st.vec, resetCount);
    ghost var base := vec[..md.OffsetMax()];
    var reqPtr: int := startOffset - 1;
    start := startOffset;
    NoneJoin(c, b, more, base, start, start, start);
    while true
      invariant m.Valid() && m.md == md.(mstart := m.md.mstart)
      invariant startOffset <= start <= |c.s| && (anchored ==> start == startOffset)
      invariant NoneIn(c, b, more, base, startOffset, start) && Cleared(m.offsetVector[..], resetCount) == vec
      invariant SearchFrom(md, st, info, forced, startOffset, resetCount, study, startOffset, startOffset - 1) ==
        SearchFrom(md, m.View(), info, forced, startOffset, resetCount, study, start, reqPtr)
      invariant 2 * (Count(b) + CountMore(more)) < md.OffsetMax() ==> m.offsetOverflow == st.overflow
      decreases |c.s| - start
    {
      SearchStep(md, m.View(), info, forced, startOffset, resetCount, study, start, reqPtr);
      Clear(m.offsetVector, resetCount);
      ClearedTwice(vec, st.vec, resetCount);
      if start > startOffset { NoneLast(c, b, more, base, startOffset, start); }
      var at := Advance(c, info, anchored, study, startOffset, start, b, more, base);
      AdvancedIs(c, info, anchored, study, startOffset, start, b, more, base, at);
      NoneJoin(c, b, more, base, startOffset, start, at);
      var missing, ptr := ReqMissing(c, info, anchored, at, reqPtr, study, b, more, base);
      reqPtr := ptr;
      if missing {
        NoneJoin(c, b, more, base, startOffset, at, |c.s| + 1);
        AnswerNone(m.md, m.View(), b, more, base, startOffset, forced, at);
        SearchedIs(md, st, m.md, m.View(), info, forced, startOffset, resetCount, study, b, more, NOMATCH, at);
        return NOMATCH, at;
      }
      PreparedAt(md, m.md.mstart, b, more);
      HighAt(md, m.md.mstart, b, more);
      rc := TryAt(m, at, b, more, base);
      start := at;
      if rc == NOMATCH { NoneJoin(c, b, more, base, startOffset, at, at + 1); }
      if rc != NOMATCH || anchored || at + 1 > |c.s| {
        if rc == NOMATCH {
          if info.anchored {
            NoneLast(c, b, more, base, startOffset, at + 1);
            AnchoredElsewhere(c, b, more, base, info, study, startOffset, |c.s| + 1);
          }
          AnswerNone(m.md, m.View(), b, more, base, startOffset, forced, start);
        } else {
          AnswerSome(m.md, m.View(), b, more, base, startOffset, forced, rc, start);
        }
        SearchedIs(md, st, m.md, m.View(), info, forced, startOffset, resetCount, study, b, more, rc, start);
        return;
      }
      start := at + 1;
    }
  }

  lemma NoneLast(c: Ctx, b: Branch, more: Branches, vec: seq<int>, lo: nat, hi: nat)
    requires lo < hi <= |c.s| + 1 && NoneIn(c, b, more, vec, lo, hi)
    ensures NoneAt(c, b, more, vec, hi - 1) && NoneAt(c, b, more, vec, lo)
  {
    hide NoneAt;
  }

  lemma AdvancedIs(c: Ctx, info: Info, anchored: bool, study: Option<Map>, startOffset: nat, start0: nat,
                   b: Branch, more: Branches, vec: seq<int>, start: nat)
    requires Advanced(c, info, anchored, study, startOffset, start0, b, more, vec, start)
    ensures start0 <= start <= |c.s| && NoneIn(c, b, more, vec, start0, start)
    ensures start == AdvanceTo(c, info, anchored, study, startOffset, start0)
    ensures anchored && start0 == startOffset ==> start == start0
  {
    hide NoneIn, AdvanceTo;
  }

  lemma AnswerNone(md: Md, st: State, b: Branch, more: Branches, base: seq<int>, from: nat, forced: bool, start: nat)
    requires from <= |md.c.s|
    requires NoneIn(md.c, b, more, base, from, |md.c.s| + 1) || (forced && NoneIn(md.c, b, more, base, from, from + 1))
    ensures Answer(md, st, b, more, base, from, forced, NOMATCH, start)
  {
    hide NoneAt;
  }

  lemma AnswerSome(md: Md, st: State, b: Branch, more: Branches, base: seq<int>, from: nat, forced: bool, rc: RC, start: nat)
    requires rc in {MATCH, MATCHLIMIT, RECURSIONLIMIT} && from <= start <= |md.c.s| && md.mstart == start && (forced ==> start == from)
    requires NoneIn(md.c, b, more, base, from, start) && (rc == MATCH ==> Finds(md, st, b, more, WaysAt(md.c, b, more, base, start)))
    ensures Answer(md, st, b, more, base, from, forced, rc, start)
  {
    hide NoneIn, WaysAt, Finds;
  }

  lemma SearchedIs(md: Md, st: State, md': Md, st': State, info: Info, forced: bool, startOffset: nat, resetCount: nat,
                   study: Option<Map>, b: Branch, more: Branches, rc: RC, start: nat)
    requires Sized(md, st, resetCount) && startOffset <= |md.c.s| && md' == md.(mstart := md'.mstart)
    requires Answer(md', st', b, more, Cleared(st.vec, resetCount)[..md.OffsetMax()], startOffset, forced, rc, start)
    requires End(rc, start, st') == SearchFrom(md, st, info, forced, startOffset, resetCount, study, startOffset, startOffset - 1)
    requires rc in {MATCH, NOMATCH} && 2 * (Count(b) + CountMore(more)) < md.OffsetMax() ==> st'.overflow == st.overflow
    requires High(md, b, more) ==> rc == MATCH || rc == NOMATCH
    ensures Searched(md, st, md', st', info, forced, startOffset, resetCount, study, b, more, rc, start)
  {
    hide Answer, SearchFrom, High, Count, CountMore, Cleared;
  }

  lemma SearchStep(md: Md, st: State, info: Info, forced: bool, startOffset: nat, resetCount: nat, study: Option<Map>, start: nat, reqPtr: int)
    requires Sized(md, st, resetCount) && start <= |md.c.s|
    ensures var c, anchored := md.c, info.anchored || forced;
      var st1 := st.(vec := Cleared(st.vec, resetCount));
      var at := AdvanceTo(c, info, anchored, study, startOffset, start);
      var r := ReqScan(c, info, anchored, at, reqPtr);
      var o := Call(md.(mstart := at), st1.(count := 0), Begin(md.(mstart := at)), false);
      SearchFrom(md, st, info, forced, startOffset, resetCount, study, start, reqPtr) ==
        if r.0 then End(NOMATCH, at, st1)
        else if o.rc != NOMATCH || anchored || at + 1 > |c.s| then End(o.rc, at, o.st)
        else SearchFrom(md, o.st, info, forced, startOffset, resetCount, study, at + 1, r.1)
  {
    hide Call, Cleared, AdvanceTo, ReqScan;
  }

  lemma ClearedTwice(vec: seq<int>, v: seq<int>, n: nat)
    requires n <= |v| && vec == Cleared(v, n)
    ensures Cleared(vec, n) == vec
  {
  }

  lemma PreparedAt(md: Md, at: nat, b: Branch, more: Branches)
    requires Prepared(md, b, more)
    ensures Prepared(md.(mstart := at), b, more)
  {
  }

  lemma HighAt(md: Md, at: nat, b: Branch, more: Branches)
    ensures High(md.(mstart := at), b, more) == High(md, b, more)
  {
  }

  lemma NoneHere(c: Ctx, b: Branch, more: Branches, vec: seq<int>, p: nat)
    requires p <= |c.s| && WaysAt(c, b, more, vec, p) == []
    ensures NoneAt(c, b, more, vec, p)
  {
  }

  /** The offsets are those of a way of matching at start, of the first one if the
      pattern is usable; the value is the number of pairs, or 0 where the
      vector is too short. */
  ghost predicate Delivered(md: Md, info: Info, b: Branch, more: Branches, base: seq<int>, start: nat, code: int, vec: seq<int>)
    requires start <= |md.c.s|
  {
    var ways := WaysAt(md.c, b, more, base, start);
    |vec| == md.offsetEnd && ways != [] &&
    (exists x: Res :: x in ways && Shows(md, info, start, x, code, vec)) &&
    (Usable(b, more, md.c.nocase) ==> Shows(md, info, start, ways[0], code, vec))
  }

  ghost predicate Shows(md: Md, info: Info, start: nat, x: Res, code: int, vec: seq<int>) {
    |x.vec| == md.OffsetMax() <= |vec| &&
    (forall i :: 2 <= i < |x.vec| ==> vec[i] == x.vec[i]) && (|vec| >= 2 ==> vec[0] == start && vec[1] == x.pos) &&
    (code == 0 || code == x.top / 2) && (2 + 2 * info.topBracket <= md.OffsetMax() ==> code == x.top / 2)
  }

  /** A vector that is too small says so: the offsets are cut from a way of matching at start
      that has room for all groups, from the first one if the pattern is usable; and if that
      way sets a group that has no room in the vector, the value is 0. */
  ghost predicate Declared(md: Md, b: Branch, more: Branches, start: nat, code: int, vec: seq<int>)
    requires start <= |md.c.s|
  {
    var ways := WaysAt(md.c, b, more, Overflow.Unset(), start);
    exists x: Res :: x in ways && (Usable(b, more, md.c.nocase) ==> x == ways[0]) && Declares(md, x, code, vec)
  }

  ghost predicate Declares(md: Md, x: Res, code: int, vec: seq<int>) {
    md.OffsetMax() <= |x.vec| == 2 * Overflow.GROUPS && md.OffsetMax() <= |vec| && (|vec| >= 2 ==> vec[1] == x.pos) &&
    (forall i :: 2 <= i < md.OffsetMax() ==> vec[i] == x.vec[i]) && (Overflow.Beyond(md, x.vec) ==> code == 0)
  }

  lemma Declare(md: Md, st: State, b: Branch, more: Branches, start: nat, code: int, vec: seq<int>)
    requires start <= |md.c.s| && Overflow.CutOf(md, st, b, more, WaysAt(md.c, b, more, Overflow.Unset(), start))
    requires vec == if |st.vec| < 2 then st.vec else st.vec[0 := start][1 := st.endPtr]
    requires code == if |st.vec| < 2 || st.overflow then 0 else st.endTop / 2
    ensures Declared(md, b, more, start, code, vec)
  {
    hide WaysAt, Usable, Overflow.Unset, Overflow.Beyond;
    forall x: Res | Overflow.Cut(md, st, x) ensures Declares(md, x, code, vec) {
      assert forall i :: 2 <= i < md.OffsetMax() ==> st.vec[..md.OffsetMax()][i] == x.vec[..md.OffsetMax()][i];
    }
  }

  /** What the vector holds before a match: unset pairs for all groups of the pattern, and
      otherwise what it held; and after a search without success the same. */
  ghost predicate Reset(md: Md, st: State, info: Info, code: int, vec: seq<int>, base: seq<int>) {
    |base| == md.OffsetMax() == |vec| / 3 * 2 && |vec| == |st.vec| &&
    (forall i :: 0 <= i < |base| ==> base[i] == if i < 2 + 2 * info.topBracket then -1 else st.vec[i]) &&
    (code == -1 ==> forall i :: 0 <= i < |vec| ==> vec[i] == if i < 2 + 2 * info.topBracket then -1 else st.vec[i])
  }

  lemma IsReset(md: Md, st: State, info: Info, e: End)
    requires Sized(md, st, 0) && |e.st.vec| == md.offsetEnd
    requires e.rc == NOMATCH ==> e.st.vec == Cleared(st.vec, ResetCount(md, info))
    ensures Reset(md, st, info, Result(e).0, Result(e).1, Cleared(st.vec, ResetCount(md, info))[..md.OffsetMax()])
  {
    ClearedBase(st.vec, ResetCount(md, info), md.OffsetMax());
    hide Cleared;
  }

  /** What is said of a match: it is at the leftmost start that has one. */
  ghost predicate Reported(md: Md, md': Md, info: Info, forced: bool, startOffset: nat, b: Branch, more: Branches, base: seq<int>,
                           code: int, vec: seq<int>) {
    var start := md'.mstart;
    startOffset <= start <= |md'.c.s| && (forced ==> start == startOffset) && NoneIn(md'.c, b, more, base, startOffset, start) &&
    Delivered(md', info, b, more, base, start, code, vec) && Displayed(md', b, more, base, code, vec) &&
    (md.OffsetMax() <= 2 * info.topBracket ==> start <= |md.c.s| && Declared(md, b, more, start, code, vec)) &&
    (code == 0 && |vec| >= 2 ==> Blame.PatternBlamed(md, b, more, startOffset, start))
  }

  /** What the caller gets: the value and the offsets are those of Bumpalong.Exec; they
      are those of a way of matching at the leftmost start that has one, NOMATCH means
      that none has, and with limits that are high enough there is no other error. The
      value is 0 only if, from a start that was tried, a group without room can be
      closed. base holds the captures before a match: unset for all groups of the pattern,
      and otherwise what the vector held. */
  ghost predicate Returned(md: Md, st: State, md': Md, vec: seq<int>, info: Info, forced: bool, startOffset: nat, study: Option<Map>,
                           b: Branch, more: Branches, code: int, base: seq<int>) {
    var c, start := md.c, md'.mstart;
    && Sized(md, st, 0) && startOffset <= |c.s| && md' == md.(mstart := start)
    && (code, vec) == Bumpalong.Exec(md, st, info, forced, startOffset, study)
    && Reset(md, st, info, code, vec, base)
    && (code >= 0 ==> Reported(md, md', info, forced, startOffset, b, more, base, code, vec))
    && (code == -1 ==> NoneIn(c, b, more, base, startOffset, if forced then startOffset + 1 else |c.s| + 1))
    && (code < 0 ==> code in {-1, -8, -21})
    && (High(md, b, more) ==> code >= -1)
  }

  /** pcre_exec: the search, and the offsets of the whole match in the first pair. */
  method PcreExec(m: M.MatchData, info: Info, forced: bool, startOffset: nat, study: Option<Map>,
                  ghost b: Branch, ghost more: Branches)
    returns (code: int, ghost base: seq<int>)
    requires m.Valid() && Prepared(m.md, b, more) && Searching(m.md.c, b, more, info, study)
    requires startOffset <= |m.md.c.s|
    modifies m, m.offsetVector
    ensures m.Valid() && Returned(old(m.md), old(m.View()), m.md, m.offsetVector[..], info, forced, startOffset, study, b, more, code, base)
  {
    hide NoneIn, Searching, Prepared, Halting, Usable, WaysAt, High, SearchFrom, Matched, Cleared, Searched, Returned, Count, CountMore, Compile, EncProgram, Bumpalong.Exec, Result;
    ghost var md, st := m.md, m.View();
    m.offsetOverflow := false;
    var resetCount := 2 + 2 * info.topBracket;
    if resetCount > m.md.offsetEnd { resetCount := m.md.offsetEnd; }
    base := Cleared(m.offsetVector[..], resetCount)[..m.md.OffsetMax()];
    TopBracket(m.md.c, b, more, info, study);
    var rc, start := Search(m, info, forced, startOffset, resetCount, study, b, more);
    ghost var e := End(rc, start, m.View());
    SearchReturns(md, st, m.md, e, info, forced, startOffset, study, b, more, base);
    ResultIs(e);
    match rc {
      case MATCH =>
        code := if m.offsetOverflow then 0 else m.endOffsetTop / 2;
        if m.offsetVector.Length < 2 {
          code := 0;
        } else {
          m.offsetVector[0] := start;
          m.offsetVector[1] := m.endMatchPtr;
          assert m.offsetVector[..] == e.st.vec[0 := start][1 := e.st.endPtr];
        }
      case NOMATCH => code := PCRE_ERROR_NOMATCH;
      case MATCHLIMIT => code := PCRE_ERROR_MATCHLIMIT;
      case RECURSIONLIMIT => code := PCRE_ERROR_RECURSIONLIMIT;
    }
  }

  lemma ResultIs(e: End)
    ensures Result(e) == (
      if e.rc == MATCH then
        if |e.st.vec| < 2 then (0, e.st.vec)
        else (if e.st.overflow then 0 else e.st.endTop / 2, e.st.vec[0 := e.start][1 := e.st.endPtr])
      else (if e.rc == NOMATCH then PCRE_ERROR_NOMATCH else if e.rc == MATCHLIMIT then PCRE_ERROR_MATCHLIMIT else PCRE_ERROR_RECURSIONLIMIT, e.st.vec))
  {
  }

  /** What the search has found is what the caller gets. */
  lemma SearchReturns(md: Md, st: State, md': Md, e: End, info: Info, forced: bool, startOffset: nat, study: Option<Map>,
                      b: Branch, more: Branches, base: seq<int>)
    requires Searched(md, st.(overflow := false), md', e.st, info, forced, startOffset, ResetCount(md, info), study, b, more, e.rc, e.start)
    requires base == Cleared(st.vec, ResetCount(md, info))[..md.OffsetMax()] && info.topBracket == Count(b) + CountMore(more)
    requires Prepared(md, b, more)
    ensures Returned(md, st, md', Result(e).1, info, forced, startOffset, study, b, more, Result(e).0, base)
    ensures e.rc in {MATCH, NOMATCH, MATCHLIMIT, RECURSIONLIMIT}
  {
    hide NoneIn, WaysAt, High, SearchFrom, Cleared, Finds, Usable, Delivered, Declared, Displayed, Blame.PatternBlamed, Compile, Count, CountMore, Prepared, Reset, Reported, Result;
    SearchedVec(md, st.(overflow := false), e, info, forced, startOffset, study, b, more);
    assert e == End(e.rc, e.start, e.st);
    IsReset(md, st, info, e);
    ResultIs(e);
    if e.rc == MATCH { MatchReported(md, st.(overflow := false), md', e, info, forced, startOffset, study, b, more, base); }
  }

  lemma MatchReported(md: Md, st: State, md': Md, e: End, info: Info, forced: bool, startOffset: nat, study: Option<Map>,
                      b: Branch, more: Branches, base: seq<int>)
    requires Searched(md, st, md', e.st, info, forced, startOffset, ResetCount(md, info), study, b, more, e.rc, e.start) && !st.overflow
    requires base == Cleared(st.vec, ResetCount(md, info))[..md.OffsetMax()] && info.topBracket == Count(b) + CountMore(more)
    requires Prepared(md, b, more) && e.rc == MATCH && |e.st.vec| == md.offsetEnd
    ensures Reported(md, md', info, forced, startOffset, b, more, base, Result(e).0, Result(e).1)
  {
    hide NoneIn, WaysAt, High, SearchFrom, Cleared, Finds, Usable, Delivered, Declared, Displayed, Blame.PatternBlamed, Compile, Count, CountMore, Prepared;
    SearchBlamed(md, st, e, info, forced, startOffset, study, b, more);
    PreparedAt(md, md'.mstart, b, more);
    ResultIs(e);
    Display(md', b, more, base, e.start, e.st, Result(e).0, Result(e).1);
    if md.OffsetMax() <= 2 * info.topBracket { SearchDeclared(md, st, e, info, forced, startOffset, study, b, more); }
    Deliver(md', info, e.st, b, more, base, e.start, Result(e).0, Result(e).1);
  }

  lemma BlameReady(md: Md, st: State, info: Info, b: Branch, more: Branches)
    requires Prepared(md, b, more) && Sized(md, st, 0)
    ensures Blame.Ready(md, st, b, more, ResetCount(md, info))
  {
    hide Compilable, EncProgram, Compile, GuardedGroup;
  }

  /** The pairs of groups are as before the match, or hold text that groups of that number
      match; a value that is not 0 is one more than the number of the last group set. */
  ghost predicate Displayed(md: Md, b: Branch, more: Branches, base: seq<int>, code: int, vec: seq<int>) {
    ValidBranch(b, md.c.nocase) && ValidMore(more, md.c.nocase) &&
    exists k: int :: Contents.Shown(md.c, Compile(b, more, md.c.nocase), base, k, vec) && (code > 0 ==> k == code)
  }

  lemma Display(md: Md, b: Branch, more: Branches, base: seq<int>, start: nat, st: State, code: int, vec: seq<int>)
    requires Prepared(md, b, more) && start <= |md.c.s| && Finds(md, st, b, more, WaysAt(md.c, b, more, base, start))
    requires |base| == md.OffsetMax() && |st.vec| == md.offsetEnd
    requires vec == if |st.vec| < 2 then st.vec else st.vec[0 := start][1 := st.endPtr]
    requires code == if |st.vec| < 2 || st.overflow then 0 else st.endTop / 2
    ensures Displayed(md, b, more, base, code, vec) && st.endTop >= 2
  {
    hide WaysAt, Compilable, Compile, Usable, Contents.Shown, Contents.Held, Captures.Follows, CapsGroup, EncProgram, GuardedGroup;
    CompilableValid(b, more, md.c.nocase);
    var x: Res :| x in WaysAt(md.c, b, more, base, start) && Matched(md, st, x);
    Contents.WayHeld(md.c, b, more, base, start, x);
    assert forall i :: 2 <= i < |base| ==> vec[i] == st.vec[..md.OffsetMax()][i];
    Contents.WayShown(md.c, Compile(b, more, md.c.nocase), base, start, x, vec);
  }

  lemma NoRoomForAll(md: Md, st: State, info: Info, b: Branch, more: Branches)
    requires Prepared(md, b, more) && md.OffsetMax() <= 2 * info.topBracket && info.topBracket == Count(b) + CountMore(more) && Sized(md, st, 0)
    ensures Overflow.Ready(md, st, b, more, ResetCount(md, info))
  {
    hide Count, CountMore, EncProgram, Compile, GuardedGroup;
  }

  lemma SearchDeclared(md: Md, st: State, e: End, info: Info, forced: bool, startOffset: nat, study: Option<Map>, b: Branch, more: Branches)
    requires Prepared(md, b, more) && Sized(md, st, ResetCount(md, info)) && startOffset <= |md.c.s|
    requires md.OffsetMax() <= 2 * info.topBracket && info.topBracket == Count(b) + CountMore(more)
    requires e == SearchFrom(md, st, info, forced, startOffset, ResetCount(md, info), study, startOffset, startOffset - 1)
    ensures e.rc == MATCH ==> e.start <= |md.c.s| && Declared(md, b, more, e.start, Result(e).0, Result(e).1)
  {
    hide SearchFrom, Halting, EncProgram, Compile, Cleared, Prepared, Declared, Count, CountMore, WaysAt, Usable, Overflow.Unset, Overflow.CutOf, Overflow.Ready;
    NoRoomForAll(md, st, info, b, more);
    Overflow.SearchIsCut(md, st, info, forced, startOffset, ResetCount(md, info), study, startOffset, startOffset - 1, b, more);
    if e.rc == MATCH { Declare(md, e.st, b, more, e.start, Result(e).0, Result(e).1); }
  }

  lemma SearchBlamed(md: Md, st: State, e: End, info: Info, forced: bool, startOffset: nat, study: Option<Map>, b: Branch, more: Branches)
    requires Prepared(md, b, more) && Sized(md, st, ResetCount(md, info)) && startOffset <= |md.c.s| && !st.overflow
    requires e == SearchFrom(md, st, info, forced, startOffset, ResetCount(md, info), study, startOffset, startOffset - 1)
    ensures e.st.overflow ==> Blame.PatternBlamed(md, b, more, startOffset, e.start)
  {
    hide SearchFrom, Halting, EncProgram, Compile, Cleared, Prepared, Blame.Ready, Blame.PatternBlamed;
    BlameReady(md, st, info, b, more);
    Blame.SearchBlames(md, st, info, forced, startOffset, ResetCount(md, info), study, startOffset, startOffset - 1, b, more);
  }

  lemma SearchedVec(md: Md, st: State, e: End, info: Info, forced: bool, startOffset: nat, study: Option<Map>, b: Branch, more: Branches)
    requires Prepared(md, b, more) && Sized(md, st, ResetCount(md, info)) && startOffset <= |md.c.s|
    requires e == SearchFrom(md, st, info, forced, startOffset, ResetCount(md, info), study, startOffset, startOffset - 1)
    ensures e.rc == NOMATCH ==> e.st.vec == Cleared(st.vec, ResetCount(md, info))
  {
    hide SearchFrom, Halting, EncProgram, Compile, Cleared;
    Overflow.SearchLeaves(md, st, info, forced, startOffset, ResetCount(md, info), study, startOffset, startOffset - 1, b, more);
  }

  lemma ClearedBase(v: seq<int>, n: nat, max: nat)
    requires n <= |v| && max <= |v|
    ensures forall i :: 0 <= i < max ==> Cleared(v, n)[..max][i] == if i < n then -1 else v[i]
    ensures forall i :: 0 <= i < |v| ==> Cleared(v, n)[i] == if i < n then -1 else v[i]
  {
  }

  lemma TopBracket(c: Ctx, b: Branch, more: Branches, info: Info, study: Option<Map>)
    requires Searching(c, b, more, info, study)
    ensures info.topBracket == Count(b) + CountMore(more)
  {
    hide PatternInfo, Compilable, Count, CountMore, LeadingGroup, Compile, ScanGroup, Uncase, StudyOk, ValidBranch, ValidMore;
    CompilableValid(b, more, c.nocase);
    InfoIs(b, more, c.nocase, c.multiline);
  }

  lemma Deliver(md: Md, info: Info, st: State, b: Branch, more: Branches, base: seq<int>, start: nat, code: int, vec: seq<int>)
    requires start <= |md.c.s| && Finds(md, st, b, more, WaysAt(md.c, b, more, base, start)) && |st.vec| == md.offsetEnd
    requires vec == if |st.vec| < 2 then st.vec else st.vec[0 := start][1 := st.endPtr]
    requires code == if |st.vec| < 2 || st.overflow then 0 else st.endTop / 2
    requires 2 + 2 * info.topBracket <= md.OffsetMax() ==> !st.overflow
    ensures Delivered(md, info, b, more, base, start, code, vec)
  {
    hide WaysAt, Usable;
    var ways := WaysAt(md.c, b, more, base, start);
    forall x: Res | Matched(md, st, x) ensures Shows(md, info, start, x, code, vec) {
      assert forall i :: 2 <= i < |x.vec| ==> st.vec[..md.OffsetMax()][i] == x.vec[i];
    }
  }

  // ---------- study ----------

  lemma {:induction false} FormedSmall(ns: Nodes, lo: nat, hi: nat)
    requires Formed(ns, lo, hi) && hi < 256
    ensures Small(ns)
    decreases ns, 1
  {
    hide CouldBeEmpty;
    if ns.Cons? {
      if ns.n.Grp? { FormedGroupSmall(ns.n.g, lo, hi); }
      if ns.n.Once? { FormedSmall(ns.n.ns, lo, hi); }
      FormedSmall(ns.rest, lo, hi);
    }
  }

  lemma {:induction false} FormedGroupSmall(g: Group, lo: nat, hi: nat)
    requires FormedGroup(g, lo, hi) && hi < 256
    ensures SmallGroup(g)
    decreases g, 0
  {
    hide GroupCouldBeEmpty;
    var inner := if g.cap == 0 then lo else g.cap;
    FormedSmall(g.b, inner, hi);
    FormedAltsSmall(g.more, inner, hi);
  }

  lemma {:induction false} FormedAltsSmall(a: Alts, lo: nat, hi: nat)
    requires FormedAlts(a, lo, hi) && hi < 256
    ensures SmallAlts(a)
    decreases a, 1
  {
    if a.Alt? {
      FormedSmall(a.b, lo, hi);
      FormedAltsSmall(a.more, lo, hi);
    }
  }

  /** A map that covers the compiled pattern may be used by the search. */
  lemma MapServes(c: Ctx, b: Branch, more: Branches, bits: Map)
    requires Compilable(b, more, c.nocase) && OnceCov(bits, Compile(b, more, c.nocase), true, false)
    ensures StudyOk(c, b, more, bits)
  {
    var g := Compile(b, more, c.nocase);
    hide Matches, Compilable, Compile, OnceCov, NoneAt, EndsGroup;
    forall vec: seq<int>, p: nat | p <= |c.s| && !(p < |c.s| && bits[c.s[p]]) ensures NoneAt(c, b, more, vec, p) {
      if !NoneAt(c, b, more, vec, p) {
        var i := SomeWay(c, b, more, vec, p);
        var e := Matches(c, b, more, Res(p, vec, 2))[i].pos;
        MatchesEnd(c, b, more, vec, p, e);
        StartsCovered(c, g, bits, p, e);
      }
    }
  }

  /** In byte mode, a match of a covered bracket begins with a byte of the map. */
  lemma StartsCovered(c: Ctx, g: Group, bits: Map, p: nat, e: nat)
    requires OnceCov(bits, g, true, false) && p <= |c.s| && EndsGroup(c, g, p, e)
    ensures p < |c.s| && bits[c.s[p]]
  {
    hide OnceCov, EndsGroup, Units.GroupReaches;
    Units.GroupEndsReach(c, g, p, e);
    GroupCov(bits, g, true, Units.ByteText(c), p, e);
  }

  /** pcre_study: a map, when the scan of an unanchored pattern without a first byte
      finds that every match must begin with one of its bytes. */
  method PcreStudy(code: seq<Byte>, info: Info, nocase: bool, ghost b: Branch, ghost more: Branches) returns (study: Option<Map>)
    requires Compilable(b, more, nocase) && code == EncProgram(Compile(b, more, nocase)) && Count(b) + CountMore(more) < 256
    ensures study.Some? ==> forall c: Ctx :: c.nocase == nocase ==> StudyOk(c, b, more, study.value)
    ensures var g := Compile(b, more, nocase);
      (study.Some? <==> !info.anchored && !info.first.Must? && !info.startline && GroupFinds(g) == DONE) &&
      (study.Some? ==> forall k: Byte :: study.value[k] == GroupSets(g, false, k))
  {
    hide Compile, EncProgram, EncGroup, ValidGroup, FormedGroup, SmallGroup, OnceCov, StudyOk, GroupFinds, GroupSets, Compilable, Count, CountMore, ValidBranch, ValidMore, Has, KAt;
    if info.anchored || info.first.Must? || info.startline { return None; }
    StudyReady(b, more, nocase);
    ghost var g := Compile(b, more, nocase);
    var bits := new bool[256](i => false);
    var rc := SetStartBits(code, 0, bits, nocase, false, g);
    if rc != DONE { return None; }
    MapServesAll(b, more, nocase, bits[..]);
    return Some(bits[..]);
  }

  lemma StudyReady(b: Branch, more: Branches, nocase: bool)
    requires Compilable(b, more, nocase) && Count(b) + CountMore(more) < 256
    ensures ValidBranch(b, nocase) && ValidMore(more, nocase)
    ensures var g := Compile(b, more, nocase);
      Has(EncProgram(g), 0, EncGroup(g)) && ValidGroup(g, nocase) && SmallGroup(g) && |EncProgram(g)| <= MAX_PATTERN_SIZE &&
      Units.OneByteGroup(g, false)
  {
    hide Compile, EncProgram, EncGroup, ValidGroup, FormedGroup, SmallGroup, Compilable, Has, KAt, Count, CountMore, Units.OneByteGroup;
    CompilableFormed(b, more, nocase);
    FormedGroupSmall(Compile(b, more, nocase), 0, Count(b) + CountMore(more));
    Units.ByteModeGroup(Compile(b, more, nocase));
    ProgramAt(Compile(b, more, nocase));
  }

  lemma MapServesAll(b: Branch, more: Branches, nocase: bool, bits: Map)
    requires Compilable(b, more, nocase) && OnceCov(bits, Compile(b, more, nocase), true, false)
    ensures forall c: Ctx :: c.nocase == nocase ==> StudyOk(c, b, more, bits)
  {
    hide Compile, OnceCov, StudyOk, Compilable;
    forall c: Ctx | c.nocase == nocase ensures StudyOk(c, b, more, bits) { MapServes(c, b, more, bits); }
  }
}
