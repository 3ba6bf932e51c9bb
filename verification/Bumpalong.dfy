/** What the search loop of pcre_exec does, start by start, as a function of the match
    block; higher limits do not change it. */
module Bumpalong {
  import opened Bytes
  import opened Semantics
  import opened Machine
  import opened Limits
  import opened FirstByte
  import opened Study
  import opened Theorems

  datatype Option<T> = None | Some(value: T)

  /** What pcre_compile2 stores beside the code. */
  datatype Info = Info(anchored: bool, startline: bool, first: Req, req: Req, topBracket: nat)

  const REQ_BYTE_MAX: nat := 1000

  /** Where the search has ended. */
  datatype End = End(rc: RC, start: nat, st: State)

  function Cleared(vec: seq<int>, n: nat): (v: seq<int>)
    requires n <= |vec|
    ensures |v| == |vec|
  {
    seq(|vec|, i requires 0 <= i < |vec| => if i < n then -1 else vec[i])
  }

  // ---------- skips ----------

  /** A start that is passed over without calling match(). */
  predicate Skipped(c: Ctx, info: Info, anchored: bool, study: Option<Map>, startOffset: nat, p: nat) {
    p < |c.s| &&
    if !anchored && info.first.Must? then
      if info.first.caseless then Lcc(c.s[p]) != Lcc(info.first.c) else c.s[p] != info.first.c
    else if info.startline then p > startOffset && c.s[p - 1] != NEWLINE
    else !anchored && study.Some? && !study.value[c.s[p]]
  }

  function AdvanceTo(c: Ctx, info: Info, anchored: bool, study: Option<Map>, startOffset: nat, p: nat): (q: nat)
    requires p <= |c.s|
    ensures p <= q <= |c.s|
    decreases |c.s| - p
  {
    if Skipped(c, info, anchored, study, startOffset, p) then AdvanceTo(c, info, anchored, study, startOffset, p + 1) else p
  }

  /** The next place of the required byte. */
  function FindReq(c: Ctx, req: Req, p: nat): (q: nat)
    requires req.Must?
    ensures p <= q
    decreases |c.s| - p
  {
    if p < |c.s| && !(c.s[p] == req.c || (req.caseless && c.s[p] == Fcc(req.c))) then FindReq(c, req, p + 1) else p
  }

  /** Is the required byte nowhere ahead, and where was it found last? */
  function ReqScan(c: Ctx, info: Info, anchored: bool, start: nat, reqPtr: int): (bool, int)
    requires start <= |c.s|
  {
    var lo := start + if !anchored && info.first.Must? then 1 else 0;
    if info.req.Must? && |c.s| - start < REQ_BYTE_MAX && lo > reqPtr then
      var p := FindReq(c, info.req, lo);
      if p >= |c.s| then (true, reqPtr) else (false, p)
    else (false, reqPtr)
  }

  // ---------- the loop ----------

  predicate Sized(md: Md, st: State, resetCount: nat) {
    md.offsetEnd % 3 == 0 && |st.vec| == md.offsetEnd && resetCount <= md.offsetEnd
  }

  function SearchFrom(md: Md, st: State, info: Info, forced: bool, startOffset: nat, resetCount: nat, study: Option<Map>,
                      start: nat, reqPtr: int): (e: End)
    requires Sized(md, st, resetCount) && start <= |md.c.s|
    ensures |e.st.vec| == md.offsetEnd
    decreases |md.c.s| - start
  {
    var c, anchored := md.c, info.anchored || forced;
    var st1 := st.(vec := Cleared(st.vec, resetCount));
    var at := AdvanceTo(c, info, anchored, study, startOffset, start);
    var (missing, ptr) := ReqScan(c, info, anchored, at, reqPtr);
    if missing then End(NOMATCH, at, st1)
    else
      var o := Call(md.(mstart := at), st1.(count := 0), Begin(md.(mstart := at)), false);
      if o.rc != NOMATCH || anchored || at + 1 > |c.s| then End(o.rc, at, o.st)
      else SearchFrom(md, o.st, info, forced, startOffset, resetCount, study, at + 1, ptr)
  }

  /** A search that hits no limit gives the same result, start, captures and call count
      under any higher limits. */
  lemma {:induction false} SearchRaised(md: Md, md': Md, st: State, info: Info, forced: bool, startOffset: nat, resetCount: nat,
                                        study: Option<Map>, start: nat, reqPtr: int)
    requires Sized(md, st, resetCount) && start <= |md.c.s| && Raised(md, md')
    ensures var e := SearchFrom(md, st, info, forced, startOffset, resetCount, study, start, reqPtr);
      e.rc in {MATCHLIMIT, RECURSIONLIMIT} ||
      SearchFrom(md', st, info, forced, startOffset, resetCount, study, start, reqPtr) == e
    decreases |md.c.s| - start
  {
    hide Call, AdvanceTo, ReqScan, Cleared;
    var c, anchored := md.c, info.anchored || forced;
    var st1 := st.(vec := Cleared(st.vec, resetCount));
    var at := AdvanceTo(c, info, anchored, study, startOffset, start);
    var (missing, ptr) := ReqScan(c, info, anchored, at, reqPtr);
    if !missing {
      CallRaised(md.(mstart := at), md'.(mstart := at), st1.(count := 0), Begin(md.(mstart := at)), false);
      var o := Call(md.(mstart := at), st1.(count := 0), Begin(md.(mstart := at)), false);
      if o.rc == NOMATCH && !anchored && at + 1 <= |c.s| {
        SearchRaised(md, md', o.st, info, forced, startOffset, resetCount, study, at + 1, ptr);
      }
    }
  }

  // ---------- what pcre_exec returns ----------

  const PCRE_ERROR_NOMATCH := -1
  const PCRE_ERROR_MATCHLIMIT := -8
  const PCRE_ERROR_RECURSIONLIMIT := -21

  /** The value and the offsets that the caller gets. */
  function Result(e: End): (r: (int, seq<int>)) {
    match e.rc
    case MATCH =>
      if |e.st.vec| < 2 then (0, e.st.vec)
      else (if e.st.overflow then 0 else e.st.endTop / 2, e.st.vec[0 := e.start][1 := e.st.endPtr])
    case NOMATCH => (PCRE_ERROR_NOMATCH, e.st.vec)
    case MATCHLIMIT => (PCRE_ERROR_MATCHLIMIT, e.st.vec)
    case _ => (PCRE_ERROR_RECURSIONLIMIT, e.st.vec)
  }

  function ResetCount(md: Md, info: Info): nat {
    if 2 + 2 * info.topBracket > md.offsetEnd then md.offsetEnd else 2 + 2 * info.topBracket
  }

  function Exec(md: Md, st: State, info: Info, forced: bool, startOffset: nat, study: Option<Map>): (r: (int, seq<int>))
    requires Sized(md, st, 0) && startOffset <= |md.c.s|
  {
    Result(SearchFrom(md, st.(overflow := false), info, forced, startOffset, ResetCount(md, info), study, startOffset, startOffset - 1))
  }

  /** pcre_exec gives the same value and the same offsets under any higher limits,
      unless it has hit one. */
  lemma ExecRaised(md: Md, md': Md, st: State, info: Info, forced: bool, startOffset: nat, study: Option<Map>)
    requires Sized(md, st, 0) && startOffset <= |md.c.s| && Raised(md, md')
    ensures Exec(md, st, info, forced, startOffset, study).0 in {PCRE_ERROR_MATCHLIMIT, PCRE_ERROR_RECURSIONLIMIT} ||
            Exec(md', st, info, forced, startOffset, study) == Exec(md, st, info, forced, startOffset, study)
  {
    hide SearchFrom;
    SearchRaised(md, md', st.(overflow := false), info, forced, startOffset, ResetCount(md, info), study, startOffset, startOffset - 1);
  }
}
