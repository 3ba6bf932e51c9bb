/** How large a workspace internal_dfa_exec needs. */
module StateRoom {
  import opened Bytes
  import opened Code
  import opened Layout
  import opened Semantics
  import opened Repeats
  import opened Pattern
  import opened Lowering
  import opened Language
  import opened StateSet
  import opened StateLanguage
  import opened StatePaths
  import opened StateRun
  import opened StateMatches
  import Theorems

  function Max(a: nat, b: nat): nat { if a > b then a else b }

  // ---------- what one run needs ----------

  /** The room that the two lists take at their largest while the states a[i..] are acted
      on; large is more than enough. */
  function SweepNeeds(code: seq<Byte>, c: Ctx, ket: nat, large: nat, pos: nat, a: seq<State>, i: nat, n: seq<State>): nat
    requires i <= |a| <= large && |n| <= large && (n != [] ==> pos < |c.s|)
    decreases large - |a|, |a| - i
  {
    var here := Max(|a|, |n|);
    if i == |a| || !(a[i] in a[..i] || Supported(At(code, a[i].offset))) then here
    else if a[i] in a[..i] then Max(here, SweepNeeds(code, c, ket, large, pos, a, i + 1, n))
    else
      var m := MovesOf(code, c, ket, a[i], pos);
      MovesFit(code, c, ket, a[i], pos);
      var now := Max(|a| + Asked(code, a[i], m), |n| + |m.next|);
      if now > large then now else Max(now, SweepNeeds(code, c, ket, large, pos, a + m.active, i + 1, n + m.next))
  }

  function EndsNeeds(code: seq<Byte>, c: Ctx, ket: nat, large: nat, pos: nat, list: seq<State>): nat
    requires pos <= |c.s| && |list| <= large
    decreases |c.s| - pos
  {
    var l, here := Sweep(code, c, ket, large, pos, list, 0, []), SweepNeeds(code, c, ket, large, pos, list, 0, []);
    if l.Lists? && l.next != [] then Max(here, EndsNeeds(code, c, ket, large, pos + 1, l.next)) else here
  }

  /** The longest list at any character of the run from `from`. */
  function RunNeeds(code: seq<Byte>, c: Ctx, ket: nat, large: nat, from: nat): nat
    requires from <= |c.s|
  {
    var first := BranchStarts(code, 0);
    if |first| > large then |first| else EndsNeeds(code, c, ket, large, from, first)
  }

  lemma SweepStepIs(code: seq<Byte>, c: Ctx, ket: nat, cap: nat, pos: nat, a: seq<State>, i: nat, n: seq<State>)
    requires i <= |a| <= cap && |n| <= cap && (n != [] ==> pos < |c.s|)
    ensures i == |a| ==> Sweep(code, c, ket, cap, pos, a, i, n) == Lists(a, n)
    ensures i < |a| && a[i] in a[..i] ==> Sweep(code, c, ket, cap, pos, a, i, n) == Sweep(code, c, ket, cap, pos, a, i + 1, n)
    ensures i < |a| && a[i] !in a[..i] && !Supported(At(code, a[i].offset)) ==> Sweep(code, c, ket, cap, pos, a, i, n) == BadItem
    ensures i < |a| && a[i] !in a[..i] && Supported(At(code, a[i].offset)) ==>
      var m := MovesOf(code, c, ket, a[i], pos);
      (m.next != [] ==> pos < |c.s|) && |m.active| <= Asked(code, a[i], m) &&
      Sweep(code, c, ket, cap, pos, a, i, n) ==
        if |a| + Asked(code, a[i], m) > cap || |n| + |m.next| > cap then NoRoom
        else Sweep(code, c, ket, cap, pos, a + m.active, i + 1, n + m.next)
  {
    hide MovesOf, Asked, Supported;
    if i < |a| { MovesFit(code, c, ket, a[i], pos); }
  }

  lemma NeedsStepIs(code: seq<Byte>, c: Ctx, ket: nat, large: nat, pos: nat, a: seq<State>, i: nat, n: seq<State>)
    requires i < |a| <= large && |n| <= large && (n != [] ==> pos < |c.s|)
    ensures a[i] in a[..i] ==>
      SweepNeeds(code, c, ket, large, pos, a, i, n) == Max(Max(|a|, |n|), SweepNeeds(code, c, ket, large, pos, a, i + 1, n))
    ensures a[i] !in a[..i] && Supported(At(code, a[i].offset)) ==>
      var m := MovesOf(code, c, ket, a[i], pos);
      var now := Max(|a| + Asked(code, a[i], m), |n| + |m.next|);
      (m.next != [] ==> pos < |c.s|) && |m.active| <= Asked(code, a[i], m) &&
      SweepNeeds(code, c, ket, large, pos, a, i, n) ==
        if now > large then now else Max(now, SweepNeeds(code, c, ket, large, pos, a + m.active, i + 1, n + m.next))
  {
    hide MovesOf, Asked, Supported;
    MovesFit(code, c, ket, a[i], pos);
  }

  lemma {:induction false} SweepRoomIff(code: seq<Byte>, c: Ctx, ket: nat, cap: nat, large: nat, pos: nat, a: seq<State>, i: nat, n: seq<State>)
    requires i <= |a| <= cap <= large && |n| <= cap && (n != [] ==> pos < |c.s|) && Sweep(code, c, ket, large, pos, a, i, n).Lists?
    ensures var l := Sweep(code, c, ket, cap, pos, a, i, n);
      if SweepNeeds(code, c, ket, large, pos, a, i, n) <= cap then l == Sweep(code, c, ket, large, pos, a, i, n) else l.NoRoom?
    decreases large - |a|, |a| - i
  {
    hide MovesOf, Asked, Supported, At;
    SweepStepIs(code, c, ket, cap, pos, a, i, n);
    SweepStepIs(code, c, ket, large, pos, a, i, n);
    hide Sweep;
    if i < |a| {
      NeedsStepIs(code, c, ket, large, pos, a, i, n);
      hide SweepNeeds;
      if a[i] in a[..i] {
        SweepRoomIff(code, c, ket, cap, large, pos, a, i + 1, n);
      } else {
        var m := MovesOf(code, c, ket, a[i], pos);
        MovesFit(code, c, ket, a[i], pos);
        if |a| + Asked(code, a[i], m) <= cap && |n| + |m.next| <= cap {
          SweepRoomIff(code, c, ket, cap, large, pos, a + m.active, i + 1, n + m.next);
        }
      }
    }
  }

  lemma {:induction false} EndsRoomIff(code: seq<Byte>, c: Ctx, ket: nat, cap: nat, large: nat, from: nat, pos: nat, list: seq<State>)
    requires pos <= |c.s| && |list| <= cap <= large && EndsFrom(code, c, ket, large, from, pos, list).Found?
    ensures var f := EndsFrom(code, c, ket, cap, from, pos, list);
      if EndsNeeds(code, c, ket, large, pos, list) <= cap then f == EndsFrom(code, c, ket, large, from, pos, list) else f.Full?
    decreases |c.s| - pos
  {
    hide Sweep, SweepNeeds;
    SweepRoomIff(code, c, ket, cap, large, pos, list, 0, []);
    var l := Sweep(code, c, ket, large, pos, list, 0, []);
    if l.next != [] {
      NeedsNext(code, c, ket, large, pos, list, 0, []);
      if SweepNeeds(code, c, ket, large, pos, list, 0, []) <= cap { EndsRoomIff(code, c, ket, cap, large, from, pos + 1, l.next); }
    }
  }

  lemma {:induction false} NeedsNext(code: seq<Byte>, c: Ctx, ket: nat, large: nat, pos: nat, a: seq<State>, i: nat, n: seq<State>)
    requires i <= |a| <= large && |n| <= large && (n != [] ==> pos < |c.s|) && Sweep(code, c, ket, large, pos, a, i, n).Lists?
    ensures |Sweep(code, c, ket, large, pos, a, i, n).next| <= SweepNeeds(code, c, ket, large, pos, a, i, n)
    decreases large - |a|, |a| - i
  {
    hide MovesOf, Asked, Supported;
    if i < |a| {
      if a[i] in a[..i] {
        NeedsNext(code, c, ket, large, pos, a, i + 1, n);
      } else {
        var m := MovesOf(code, c, ket, a[i], pos);
        MovesFit(code, c, ket, a[i], pos);
        NeedsNext(code, c, ket, large, pos, a + m.active, i + 1, n + m.next);
      }
    }
  }

  /** With less room the run is the same, exactly if none of its lists is longer. */
  lemma RoomIff(code: seq<Byte>, c: Ctx, ket: nat, cap: nat, large: nat, from: nat)
    requires from <= |c.s| && cap <= large && Run(code, c, ket, large, from).Found?
    ensures if RunNeeds(code, c, ket, large, from) <= cap then Run(code, c, ket, cap, from) == Run(code, c, ket, large, from)
            else Run(code, c, ket, cap, from).Full?
  {
    hide EndsFrom, EndsNeeds, BranchStarts;
    var first := BranchStarts(code, 0);
    if |first| <= cap { EndsRoomIff(code, c, ket, cap, large, from, from, first); }
    NeedsFirst(code, c, ket, large, from, first);
  }

  lemma NeedsFirst(code: seq<Byte>, c: Ctx, ket: nat, large: nat, pos: nat, list: seq<State>)
    requires pos <= |c.s|
    ensures |list| <= large ==> |list| <= EndsNeeds(code, c, ket, large, pos, list)
  {
    hide Sweep, MovesOf, Asked, Supported;
  }

  // ---------- a bound from the code alone ----------

  /** The states that can be told apart, while no count goes beyond m. */
  function Different(code: seq<Byte>, m: nat): nat { |code| * (m + 1) }

  /** Room for every state once, with what it may add. */
  function Roomy(code: seq<Byte>, m: nat): nat { Different(code, m) * (|code| + 1) }

  function Number(s: State, m: nat): nat { s.offset * (m + 1) + s.count }

  lemma Spread(a: nat, b: nat, k: nat)
    requires a < b
    ensures b * k >= a * k + k
  {
    var d: nat := b - a - 1;
    assert b * k == (a + 1 + d) * k == a * k + k + d * k;
  }

  lemma SameNumber(s: State, t: State, m: nat)
    requires s.count <= m && t.count <= m && Number(s, m) == Number(t, m)
    ensures s == t
  {
    if s.offset > t.offset { Spread(t.offset, s.offset, m + 1); }
    if s.offset < t.offset { Spread(s.offset, t.offset, m + 1); }
  }

  predicate Low(code: seq<Byte>, m: nat, s: State) { s.offset < |code| && s.count <= m }

  lemma {:induction false} Few(d: set<State>, m: nat, n: nat)
    requires forall s :: s in d ==> s.count <= m && Number(s, m) < n
    ensures |d| <= n
    decreases n
  {
    if last :| last in d && Number(last, m) == n - 1 {
      forall s | s in d - {last} ensures Number(s, m) < n - 1 {
        if Number(s, m) == n - 1 { SameNumber(s, last, m); }
      }
      Few(d - {last}, m, n - 1);
    } else if n > 0 {
      Few(d, m, n - 1);
    } else {
      assert d == {};
    }
  }

  lemma LowFew(code: seq<Byte>, m: nat, d: set<State>)
    requires forall s :: s in d ==> Low(code, m, s)
    ensures |d| <= Different(code, m)
  {
    forall s | s in d ensures Number(s, m) < Different(code, m) { Spread(s.offset, |code|, m + 1); }
    Few(d, m, Different(code, m));
  }

  lemma {:induction false} StartsFew(code: seq<Byte>, pc: nat)
    requires pc < |code|
    ensures |BranchStarts(code, pc)| <= |code| - pc
    decreases |code| - pc
  {
    var next := pc + Get(code, pc + 1);
    if next != pc && At(code, next) == OP_ALT { StartsFew(code, next); }
  }

  lemma MovesFew(code: seq<Byte>, c: Ctx, ket: nat, s: State, pos: nat)
    requires |code| >= 2
    ensures var m := MovesOf(code, c, ket, s, pos); Asked(code, s, m) <= |code| && |m.next| <= 1
  {
    if At(code, s.offset) in {OP_BRA, OP_SBRA, OP_CBRA, OP_SCBRA} { StartsFew(code, s.offset); }
    hide BranchStarts, SkipAlts, AcceptsAt, ZeroMoves, FamilyOf;
  }

  /** Every state that is reached from x is supported and low. */
  ghost predicate AllLow(code: seq<Byte>, c: Ctx, ket: nat, x: Conf, m: nat) {
    forall y: Conf :: Leads(code, c, ket, x, y) ==> Supported(At(code, y.s.offset)) && Low(code, m, y.s)
  }

  ghost function Done(a: seq<State>, i: nat): set<State>
    requires i <= |a|
  {
    set s | s in a[..i]
  }

  lemma DoneStep(a: seq<State>, i: nat, more: seq<State>)
    requires i < |a|
    ensures Done(a + more, i + 1) == Done(a, i) + {a[i]}
    ensures Done(a, i + 1) == Done(a, i) + {a[i]}
  {
    assert (a + more)[..i + 1] == a[..i] + [a[i]] == a[..i + 1];
  }

  lemma DoneFew(code: seq<Byte>, c: Ctx, ket: nat, x: Conf, m: nat, pos: nat, a: seq<State>, i: nat)
    requires i <= |a| && Reached(code, c, ket, x, a, pos) && AllLow(code, c, ket, x, m)
    ensures |Done(a, i)| <= Different(code, m)
  {
    hide Leads, Low, Different, Supported;
    forall s | s in Done(a, i) ensures Low(code, m, s) { assert Leads(code, c, ket, x, Conf(s, pos)); }
    LowFew(code, m, Done(a, i));
  }

  /** One character: every state is acted on once, so both lists stay within the bound. */
  lemma {:induction false} SweepFits(code: seq<Byte>, c: Ctx, ket: nat, cap: nat, pos: nat, x: Conf, m: nat,
                                     first: nat, a: seq<State>, i: nat, n: seq<State>)
    requires i <= |a| <= cap && |n| <= cap && (n != [] ==> pos < |c.s|) && |code| >= 2
    requires Reached(code, c, ket, x, a, pos) && AllLow(code, c, ket, x, m)
    requires |a| <= first + |code| * |Done(a, i)| && |n| <= |Done(a, i)|
    requires first <= Different(code, m) && Roomy(code, m) <= cap
    ensures var l := Sweep(code, c, ket, cap, pos, a, i, n); l.Lists? && |l.next| <= Different(code, m)
    decreases cap - |a|, |a| - i
  {
    hide Leads, MovesOf, Asked, Supported, Low, Reached, AllLow, Done, Different, Roomy;
    DoneFew(code, c, ket, x, m, pos, a, i);
    if i < |a| {
      DoneStep(a, i, []);
      assert a + [] == a;
      if a[i] in a[..i] {
        DoneTwice(a, i);
        SweepFits(code, c, ket, cap, pos, x, m, first, a, i + 1, n);
      } else {
        var v := MovesOf(code, c, ket, a[i], pos);
        MovesFit(code, c, ket, a[i], pos);
        MovesFew(code, c, ket, a[i], pos);
        OneFits(code, c, ket, pos, x, m, a, i, v);
        RoomFor(code, m, first, |Done(a, i)|);
        SweepFits(code, c, ket, cap, pos, x, m, first, a + v.active, i + 1, n + v.next);
      }
    }
  }

  lemma DoneTwice(a: seq<State>, i: nat)
    requires i < |a| && a[i] in a[..i]
    ensures Done(a, i + 1) == Done(a, i)
  {
    DoneStep(a, i, []);
  }

  lemma OneFits(code: seq<Byte>, c: Ctx, ket: nat, pos: nat, x: Conf, m: nat, a: seq<State>, i: nat, v: Moves)
    requires i < |a| && a[i] !in a[..i] && v == MovesOf(code, c, ket, a[i], pos)
    requires Reached(code, c, ket, x, a, pos) && AllLow(code, c, ket, x, m)
    ensures Supported(At(code, a[i].offset)) && Reached(code, c, ket, x, a + v.active, pos)
    ensures |Done(a + v.active, i + 1)| == |Done(a, i)| + 1 <= Different(code, m)
  {
    hide Leads, MovesOf, Supported, Low, Different;
    assert Leads(code, c, ket, x, Conf(a[i], pos));
    assert Supported(At(code, Conf(a[i], pos).s.offset));
    MovesReached(code, c, ket, x, a[i], pos);
    DoneStep(a, i, v.active);
    DoneFew(code, c, ket, x, m, pos, a, i + 1);
    DoneStep(a, i, []);
  }

  lemma RoomFor(code: seq<Byte>, m: nat, first: nat, d: nat)
    requires first <= Different(code, m) && d < Different(code, m)
    ensures first + |code| * d + |code| <= Roomy(code, m) && d + 1 <= Roomy(code, m)
    ensures |code| * d + |code| == |code| * (d + 1)
  {
    var n := Different(code, m);
    assert |code| * (d + 1) <= |code| * n;
    assert n * (|code| + 1) == |code| * n + n;
  }

  lemma {:induction false} EndsFit(code: seq<Byte>, c: Ctx, ket: nat, cap: nat, from: nat, pos: nat, x: Conf, m: nat, list: seq<State>)
    requires pos <= |c.s| && |list| <= cap && |code| >= 2 && Reached(code, c, ket, x, list, pos) && AllLow(code, c, ket, x, m)
    requires |list| <= Different(code, m) && Roomy(code, m) <= cap
    ensures !EndsFrom(code, c, ket, cap, from, pos, list).Full?
    decreases |c.s| - pos
  {
    hide Sweep, Reached, AllLow, Different, Roomy;
    NoneReached(code, c, ket, x, pos + 1);
    assert Done(list, 0) == {};
    SweepFits(code, c, ket, cap, pos, x, m, |list|, list, 0, []);
    SweepReached(code, c, ket, cap, pos, x, list, 0, []);
    var l := Sweep(code, c, ket, cap, pos, list, 0, []);
    if l.next != [] { EndsFit(code, c, ket, cap, from, pos + 1, x, m, l.next); }
  }

  lemma RunFits(code: seq<Byte>, c: Ctx, g: Group, cap: nat, from: nat, m: nat)
    requires Program(code, c, g) && from <= |c.s| && AllLow(code, c, Span(g), Begin(from), m) && Roomy(code, m) <= cap
    ensures !Run(code, c, Span(g), cap, from).Full?
  {
    StartsReached(code, c, g, from);
    ProgramEnd(code, c, g);
    assert |code| >= 2;
    StartsFew(code, 0);
    hide Program, AllLow, BranchStarts, EndsFrom, Span, Different, Roomy;
    AtLeastOnce(code, m);
    RoomFor(code, m, |BranchStarts(code, 0)|, 0);
    EndsFit(code, c, Span(g), cap, from, from, Begin(from), m, BranchStarts(code, 0));
  }

  lemma AtLeastOnce(code: seq<Byte>, m: nat)
    ensures |code| <= Different(code, m) && (|code| > 0 ==> Different(code, m) > 0)
  {
    assert |code| * (m + 1) == |code| * m + |code|;
  }

  lemma InCode(code: seq<Byte>, pc: nat)
    requires Supported(At(code, pc))
    ensures pc < |code|
  {
  }

  lemma TalliedLow(code: seq<Byte>, c: Ctx, g: Group, from: nat, m: nat)
    requires Program(code, c, g) && from <= |c.s| && TalliedGroup(g, m)
    ensures AllLow(code, c, Span(g), Begin(from), m)
  {
    hide Program, Leads, TalliedGroup, Supported;
    forall y: Conf | Leads(code, c, Span(g), Begin(from), y) ensures Supported(At(code, y.s.offset)) && Low(code, m, y.s) {
      ReachedSupported(code, c, g, from, y);
      ReachedTallied(code, c, g, from, y, m);
      InCode(code, y.s.offset);
    }
  }

  // ---------- counts are bounded by the subject ----------

  lemma MoveCounts(code: seq<Byte>, c: Ctx, ket: nat, x: Conf, y: Conf)
    requires Move(code, c, ket, x, y)
    ensures y.s.count + x.pos <= x.s.count + y.pos && (y.pos > x.pos ==> y.pos <= |c.s|)
  {
    MovesFit(code, c, ket, x.s, x.pos);
    StartsPlainAt(code, x.s.offset);
    hide BranchStarts, SkipAlts, AcceptsAt, ZeroMoves, FamilyOf;
  }

  lemma {:induction false} StartsPlainAt(code: seq<Byte>, pc: nat)
    ensures forall s :: s in BranchStarts(code, pc) ==> s.count == 0
    decreases |code| - pc
  {
    var next := pc + Get(code, pc + 1);
    if pc < |code| && next != pc && At(code, next) == OP_ALT { StartsPlainAt(code, next); }
  }

  lemma {:induction false} PathCounts(code: seq<Byte>, c: Ctx, ket: nat, path: seq<Conf>)
    requires |path| > 0 && IsPath(code, c, ket, path) && path[0].s.count == 0 && path[0].pos <= |c.s|
    ensures var y := path[|path| - 1]; y.s.count + path[0].pos <= y.pos <= |c.s|
    decreases |path|
  {
    hide Move;
    if |path| > 1 {
      PathInit(code, c, ket, path);
      var init := path[..|path| - 1];
      PathCounts(code, c, ket, init);
      assert Move(code, c, ket, path[|path| - 2], path[|path| - 2 + 1]);
      assert init[|init| - 1] == path[|path| - 2];
      MoveCounts(code, c, ket, path[|path| - 2], path[|path| - 1]);
    }
  }

  lemma SubjectLow(code: seq<Byte>, c: Ctx, g: Group, from: nat)
    requires Program(code, c, g) && from <= |c.s|
    ensures AllLow(code, c, Span(g), Begin(from), |c.s| - from)
  {
    hide Program, Supported, IsPath;
    forall y: Conf | Leads(code, c, Span(g), Begin(from), y) ensures Supported(At(code, y.s.offset)) && Low(code, |c.s| - from, y.s) {
      ReachedSupported(code, c, g, from, y);
      var path :| |path| > 0 && IsPath(code, c, Span(g), path) && path[0] == Begin(from) && path[|path| - 1] == y;
      PathCounts(code, c, Span(g), path);
      InCode(code, y.s.offset);
    }
  }

  // ---------- compiled patterns ----------

  /** A pattern needs no more than a number that is known from its code, if no repeat in it
      can count beyond m; and otherwise one that is known before the run. */
  lemma PatternFits(c: Ctx, b: Branch, more: Branches, cap: nat, from: nat, m: nat)
    requires Theorems.Compilable(b, more, c.nocase) && from <= |c.s|
    requires var g := Compile(b, more, c.nocase);
      Roomy(EncProgram(g), m) <= cap && (TalliedGroup(g, m) || |c.s| - from <= m)
    ensures var g := Compile(b, more, c.nocase); !Run(EncProgram(g), c, Span(g), cap, from).Full?
  {
    var g := Compile(b, more, c.nocase);
    LooseFitGroup(Loose(c), g);
    hide Theorems.Compilable, Run, EncProgram, Compile, Span, FitGroup, TalliedGroup, Roomy, Program;
    RunLoose(EncProgram(g), c, Span(g), cap, from);
    CompiledProgram(Loose(c), b, more);
    if TalliedGroup(g, m) {
      TalliedLow(EncProgram(g), Loose(c), g, from, m);
    } else {
      SubjectLow(EncProgram(g), Loose(c), g, from);
      LowRises(EncProgram(g), Loose(c), Span(g), Begin(from), |c.s| - from, m);
    }
    RunFits(EncProgram(g), Loose(c), g, cap, from, m);
  }

  lemma LowRises(code: seq<Byte>, c: Ctx, ket: nat, x: Conf, m: nat, m': nat)
    requires AllLow(code, c, ket, x, m) && m <= m'
    ensures AllLow(code, c, ket, x, m')
  {
    hide Leads, Supported;
  }
}
