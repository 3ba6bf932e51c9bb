/** What internal_dfa_exec computes, as functions: the list of states at one
    character, the next one, and the ends of matches along the subject. */
module StateRun {
  import opened Bytes
  import opened Code
  import opened Layout
  import opened Semantics
  import opened Repeats
  import opened Language
  import opened StateSet

  /** The two lists after a character, if they fit in the workspace and every opcode on
      the way is supported. */
  datatype Lists = NoRoom | BadItem | Lists(active: seq<State>, next: seq<State>)

  /** PCRE_ERROR_DFA_WSSIZE, PCRE_ERROR_DFA_UITEM, or the ends of matches. */
  datatype Found = Full | Unsupported | Found(ends: seq<nat>)

  /** The states put on the active list by s: a possessive repeat may take one back. */
  function Asked(code: seq<Byte>, s: State, m: Moves): nat {
    var op, off := At(code, s.offset), (At(code, s.offset) as int - OP_STAR as int) % 13;
    if OP_STAR <= op < OP_CRSTAR && off >= 9 then if off == 10 && s.count == 0 then 0 else 1 else |m.active|
  }

  lemma MovesFit(code: seq<Byte>, c: Ctx, ket: nat, s: State, pos: nat)
    ensures var m := MovesOf(code, c, ket, s, pos);
      (m.next != [] ==> pos < |c.s|) && |m.active| <= Asked(code, s, m)
  {
    hide SkipAlts, BranchStarts, Accepts, ZeroOk, FamilyOf;
  }

  /** Acts on the states a[i..] in turn; those already acted on are passed over. */
  function Sweep(code: seq<Byte>, c: Ctx, ket: nat, cap: nat, pos: nat, a: seq<State>, i: nat, n: seq<State>): (l: Lists)
    requires i <= |a| <= cap && |n| <= cap && (n != [] ==> pos < |c.s|)
    ensures l.Lists? ==> a <= l.active && n <= l.next && |l.active| <= cap && |l.next| <= cap && (l.next != [] ==> pos < |c.s|)
    decreases cap - |a|, |a| - i
  {
    if i == |a| then Lists(a, n)
    else if a[i] in a[..i] then Sweep(code, c, ket, cap, pos, a, i + 1, n)
    else if !Supported(At(code, a[i].offset)) then BadItem
    else
      var m := MovesOf(code, c, ket, a[i], pos);
      MovesFit(code, c, ket, a[i], pos);
      if |a| + Asked(code, a[i], m) > cap || |n| + |m.next| > cap then NoRoom
      else Sweep(code, c, ket, cap, pos, a + m.active, i + 1, n + m.next)
  }

  /** A match that ends at pos: not an empty one, under PCRE_NOTEMPTY. */
  predicate Counts(c: Ctx, from: nat, pos: nat) { pos > from || !c.notempty }

  function EndsHere(c: Ctx, ket: nat, from: nat, pos: nat, a: seq<State>): seq<nat> {
    if To(ket) in a && Counts(c, from, pos) then [pos] else []
  }

  /** The ends of matches, in the order in which they are found. */
  function EndsFrom(code: seq<Byte>, c: Ctx, ket: nat, cap: nat, from: nat, pos: nat, list: seq<State>): (f: Found)
    requires pos <= |c.s| && |list| <= cap
    decreases |c.s| - pos
  {
    var l := Sweep(code, c, ket, cap, pos, list, 0, []);
    if l.NoRoom? then Full
    else if l.BadItem? then Unsupported
    else if l.next == [] then Found(EndsHere(c, ket, from, pos, l.active))
    else
      var more := EndsFrom(code, c, ket, cap, from, pos + 1, l.next);
      if more.Found? then Found(EndsHere(c, ket, from, pos, l.active) + more.ends) else more
  }

  /** A run from the start of the pattern: its branches are the first states. */
  function Run(code: seq<Byte>, c: Ctx, ket: nat, cap: nat, from: nat): Found
    requires from <= |c.s|
  {
    var first := BranchStarts(code, 0);
    if |first| > cap then Full else EndsFrom(code, c, ket, cap, from, from, first)
  }

  // ---------- every state in the lists is reached ----------

  ghost predicate Reached(code: seq<Byte>, c: Ctx, ket: nat, x: Conf, list: seq<State>, pos: nat) {
    forall s :: s in list ==> Leads(code, c, ket, x, Conf(s, pos))
  }

  lemma LeadsOn(code: seq<Byte>, c: Ctx, ket: nat, x: Conf, y: Conf, z: Conf)
    requires Leads(code, c, ket, x, y) && Move(code, c, ket, y, z)
    ensures Leads(code, c, ket, x, z)
  {
    hide Leads, Move;
    LeadsHere(code, c, ket, z);
    LeadsStep(code, c, ket, y, z, z);
    LeadsTrans(code, c, ket, x, y, z);
  }

  lemma MovesReached(code: seq<Byte>, c: Ctx, ket: nat, x: Conf, s: State, pos: nat)
    requires Leads(code, c, ket, x, Conf(s, pos))
    ensures var m := MovesOf(code, c, ket, s, pos);
      Reached(code, c, ket, x, m.active, pos) && Reached(code, c, ket, x, m.next, pos + 1)
  {
    hide Leads, MovesOf;
    var m := MovesOf(code, c, ket, s, pos);
    forall t | t in m.active ensures Leads(code, c, ket, x, Conf(t, pos)) {
      LeadsOn(code, c, ket, x, Conf(s, pos), Conf(t, pos));
    }
    forall t | t in m.next ensures Leads(code, c, ket, x, Conf(t, pos + 1)) {
      LeadsOn(code, c, ket, x, Conf(s, pos), Conf(t, pos + 1));
    }
  }

  lemma {:induction false} SweepReached(code: seq<Byte>, c: Ctx, ket: nat, cap: nat, pos: nat, x: Conf,
                                        a: seq<State>, i: nat, n: seq<State>)
    requires i <= |a| <= cap && |n| <= cap && (n != [] ==> pos < |c.s|)
    requires Reached(code, c, ket, x, a, pos) && Reached(code, c, ket, x, n, pos + 1)
    ensures var l := Sweep(code, c, ket, cap, pos, a, i, n);
      l.Lists? ==> Reached(code, c, ket, x, l.active, pos) && Reached(code, c, ket, x, l.next, pos + 1)
    decreases cap - |a|, |a| - i
  {
    hide Leads, MovesOf, Asked, Supported;
    if i < |a| {
      if a[i] in a[..i] {
        SweepReached(code, c, ket, cap, pos, x, a, i + 1, n);
      } else if Supported(At(code, a[i].offset)) {
        var m := MovesOf(code, c, ket, a[i], pos);
        MovesFit(code, c, ket, a[i], pos);
        MovesReached(code, c, ket, x, a[i], pos);
        if |a| + Asked(code, a[i], m) <= cap && |n| + |m.next| <= cap {
          SweepReached(code, c, ket, cap, pos, x, a + m.active, i + 1, n + m.next);
        }
      }
    }
  }

  /** Every state that is reached from x stands on a supported opcode. */
  ghost predicate AllSupported(code: seq<Byte>, c: Ctx, ket: nat, x: Conf) {
    forall y: Conf :: Leads(code, c, ket, x, y) ==> Supported(At(code, y.s.offset))
  }

  lemma {:induction false} SweepSupported(code: seq<Byte>, c: Ctx, ket: nat, cap: nat, pos: nat, x: Conf,
                                          a: seq<State>, i: nat, n: seq<State>)
    requires i <= |a| <= cap && |n| <= cap && (n != [] ==> pos < |c.s|)
    requires Reached(code, c, ket, x, a, pos) && AllSupported(code, c, ket, x)
    ensures !Sweep(code, c, ket, cap, pos, a, i, n).BadItem?
    decreases cap - |a|, |a| - i
  {
    hide Leads, MovesOf, Asked, Supported;
    if i < |a| {
      if a[i] in a[..i] {
        SweepSupported(code, c, ket, cap, pos, x, a, i + 1, n);
      } else {
        assert Supported(At(code, Conf(a[i], pos).s.offset));
        var m := MovesOf(code, c, ket, a[i], pos);
        MovesFit(code, c, ket, a[i], pos);
        MovesReached(code, c, ket, x, a[i], pos);
        if |a| + Asked(code, a[i], m) <= cap && |n| + |m.next| <= cap {
          SweepSupported(code, c, ket, cap, pos, x, a + m.active, i + 1, n + m.next);
        }
      }
    }
  }

  lemma {:induction false} EndsSupported(code: seq<Byte>, c: Ctx, ket: nat, cap: nat, from: nat, pos: nat, x: Conf, list: seq<State>)
    requires pos <= |c.s| && |list| <= cap && Reached(code, c, ket, x, list, pos) && AllSupported(code, c, ket, x)
    ensures !EndsFrom(code, c, ket, cap, from, pos, list).Unsupported?
    decreases |c.s| - pos
  {
    hide Sweep, Reached, AllSupported;
    NoneReached(code, c, ket, x, pos + 1);
    SweepReached(code, c, ket, cap, pos, x, list, 0, []);
    SweepSupported(code, c, ket, cap, pos, x, list, 0, []);
    var l := Sweep(code, c, ket, cap, pos, list, 0, []);
    if l.Lists? && l.next != [] { EndsSupported(code, c, ket, cap, from, pos + 1, x, l.next); }
  }

  lemma NoneReached(code: seq<Byte>, c: Ctx, ket: nat, x: Conf, pos: nat)
    ensures Reached(code, c, ket, x, [], pos)
  {
    hide Leads;
  }

  lemma {:induction false} EndsReached(code: seq<Byte>, c: Ctx, ket: nat, cap: nat, from: nat, pos: nat, x: Conf,
                                       list: seq<State>, e: nat)
    requires pos <= |c.s| && |list| <= cap && Reached(code, c, ket, x, list, pos)
    requires var f := EndsFrom(code, c, ket, cap, from, pos, list); f.Found? && e in f.ends
    ensures Leads(code, c, ket, x, Conf(To(ket), e)) && Counts(c, from, e)
    decreases |c.s| - pos
  {
    hide Leads, Sweep;
    SweepReached(code, c, ket, cap, pos, x, list, 0, []);
    var l := Sweep(code, c, ket, cap, pos, list, 0, []);
    if e !in EndsHere(c, ket, from, pos, l.active) {
      EndsReached(code, c, ket, cap, from, pos + 1, x, l.next, e);
    }
  }

  // ---------- every state that can be reached is in the lists ----------

  /** The moves of s stay in the lists a and n. */
  predicate Settled(code: seq<Byte>, c: Ctx, ket: nat, pos: nat, s: State, a: seq<State>, n: seq<State>) {
    var m := MovesOf(code, c, ket, s, pos);
    (forall t :: t in m.active ==> t in a) && (forall t :: t in m.next ==> t in n)
  }

  predicate Closed(code: seq<Byte>, c: Ctx, ket: nat, pos: nat, done: seq<State>, a: seq<State>, n: seq<State>) {
    forall s :: s in done ==> Settled(code, c, ket, pos, s, a, n)
  }

  lemma ClosedGrows(code: seq<Byte>, c: Ctx, ket: nat, pos: nat, a: seq<State>, i: nat, n: seq<State>, m: Moves)
    requires i < |a| && Closed(code, c, ket, pos, a[..i], a, n) && m == MovesOf(code, c, ket, a[i], pos)
    ensures Closed(code, c, ket, pos, (a + m.active)[..i + 1], a + m.active, n + m.next)
  {
    hide MovesOf;
    assert (a + m.active)[..i + 1] == a[..i] + [a[i]];
  }

  lemma {:induction false} SweepClosed(code: seq<Byte>, c: Ctx, ket: nat, cap: nat, pos: nat, a: seq<State>, i: nat, n: seq<State>)
    requires i <= |a| <= cap && |n| <= cap && (n != [] ==> pos < |c.s|) && Closed(code, c, ket, pos, a[..i], a, n)
    ensures var l := Sweep(code, c, ket, cap, pos, a, i, n);
      l.Lists? ==> Closed(code, c, ket, pos, l.active, l.active, l.next)
    decreases cap - |a|, |a| - i
  {
    hide MovesOf, Settled, Asked, Supported;
    if i == |a| {
      assert a[..i] == a;
    } else if a[i] in a[..i] {
      assert a[..i + 1] == a[..i] + [a[i]];
      SweepClosed(code, c, ket, cap, pos, a, i + 1, n);
    } else if Supported(At(code, a[i].offset)) {
      var m := MovesOf(code, c, ket, a[i], pos);
      MovesFit(code, c, ket, a[i], pos);
      ClosedGrows(code, c, ket, pos, a, i, n, m);
      if |a| + Asked(code, a[i], m) <= cap && |n| + |m.next| <= cap {
        SweepClosed(code, c, ket, cap, pos, a + m.active, i + 1, n + m.next);
      }
    }
  }

  /** A path from a state in the list a stays in it, up to the next character. */
  lemma {:induction false} StaysIn(code: seq<Byte>, c: Ctx, ket: nat, pos: nat, a: seq<State>, n: seq<State>, path: seq<Conf>)
    returns (k: nat)
    requires Closed(code, c, ket, pos, a, a, n) && |path| > 0 && IsPath(code, c, ket, path)
    requires path[0].pos == pos && path[0].s in a
    ensures k < |path| && (if path[k].pos == pos then k == |path| - 1 && path[k].s in a else path[k].pos == pos + 1 && path[k].s in n)
  {
    hide MovesOf;
    k := 0;
    while k < |path| - 1 && path[k].pos == pos
      invariant k < |path|
      invariant if path[k].pos == pos then path[k].s in a else path[k].pos == pos + 1 && path[k].s in n
    {
      assert Settled(code, c, ket, pos, path[k].s, a, n);
      assert Move(code, c, ket, path[k], path[k + 1]);
      k := k + 1;
    }
  }

  lemma {:induction false} PathFound(code: seq<Byte>, c: Ctx, ket: nat, cap: nat, from: nat, pos: nat, list: seq<State>, path: seq<Conf>)
    requires pos <= |c.s| && |list| <= cap && |path| > 0 && IsPath(code, c, ket, path)
    requires path[0].pos == pos && path[0].s in list
    requires path[|path| - 1].s == To(ket) && Counts(c, from, path[|path| - 1].pos)
    ensures var f := EndsFrom(code, c, ket, cap, from, pos, list); f.Found? ==> path[|path| - 1].pos in f.ends
    decreases |c.s| - pos
  {
    hide Move, Sweep;
    SweepClosed(code, c, ket, cap, pos, list, 0, []);
    var l := Sweep(code, c, ket, cap, pos, list, 0, []);
    if l.Lists? {
      var k := StaysIn(code, c, ket, pos, l.active, l.next, path);
      if path[k].pos != pos {
        PathDrop(code, c, ket, path, k);
        PathFound(code, c, ket, cap, from, pos + 1, l.next, path[k..]);
      }
    }
  }

  lemma PathDrop(code: seq<Byte>, c: Ctx, ket: nat, path: seq<Conf>, k: nat)
    requires k < |path| && IsPath(code, c, ket, path)
    ensures IsPath(code, c, ket, path[k..]) && path[k..][0] == path[k] && path[k..][|path[k..]| - 1] == path[|path| - 1]
  {
    hide Move;
    forall i | 0 <= i < |path[k..]| - 1 ensures Move(code, c, ket, path[k..][i], path[k..][i + 1]) {
      assert path[k..][i] == path[k + i] && path[k..][i + 1] == path[k + i + 1];
    }
  }

  // ---------- the run ----------

  predicate Ascending(s: seq<nat>, lo: nat, hi: nat) {
    (forall i :: 0 <= i < |s| ==> lo <= s[i] <= hi) && forall i, j :: 0 <= i < j < |s| ==> s[i] < s[j]
  }

  lemma {:induction false} EndsAscend(code: seq<Byte>, c: Ctx, ket: nat, cap: nat, from: nat, pos: nat, list: seq<State>)
    requires pos <= |c.s| && |list| <= cap
    ensures var f := EndsFrom(code, c, ket, cap, from, pos, list); f.Found? ==> Ascending(f.ends, pos, |c.s|)
    decreases |c.s| - pos
  {
    hide Sweep;
    var l := Sweep(code, c, ket, cap, pos, list, 0, []);
    if l.Lists? && l.next != [] {
      EndsAscend(code, c, ket, cap, from, pos + 1, l.next);
    }
  }

  /** A larger workspace changes nothing but the complaint. */
  lemma {:induction false} SweepRoom(code: seq<Byte>, c: Ctx, ket: nat, cap: nat, cap': nat, pos: nat, a: seq<State>, i: nat, n: seq<State>)
    requires i <= |a| <= cap <= cap' && |n| <= cap && (n != [] ==> pos < |c.s|) && Sweep(code, c, ket, cap, pos, a, i, n).Lists?
    ensures Sweep(code, c, ket, cap', pos, a, i, n) == Sweep(code, c, ket, cap, pos, a, i, n)
    decreases cap - |a|, |a| - i
  {
    hide MovesOf, Asked, Supported;
    if i < |a| {
      if a[i] in a[..i] {
        SweepRoom(code, c, ket, cap, cap', pos, a, i + 1, n);
      } else if Supported(At(code, a[i].offset)) {
        var m := MovesOf(code, c, ket, a[i], pos);
        MovesFit(code, c, ket, a[i], pos);
        SweepRoom(code, c, ket, cap, cap', pos, a + m.active, i + 1, n + m.next);
      }
    }
  }

  lemma {:induction false} EndsRoom(code: seq<Byte>, c: Ctx, ket: nat, cap: nat, cap': nat, from: nat, pos: nat, list: seq<State>)
    requires pos <= |c.s| && |list| <= cap <= cap' && EndsFrom(code, c, ket, cap, from, pos, list).Found?
    ensures EndsFrom(code, c, ket, cap', from, pos, list) == EndsFrom(code, c, ket, cap, from, pos, list)
    decreases |c.s| - pos
  {
    hide Sweep;
    SweepRoom(code, c, ket, cap, cap', pos, list, 0, []);
    var l := Sweep(code, c, ket, cap, pos, list, 0, []);
    if l.next != [] { EndsRoom(code, c, ket, cap, cap', from, pos + 1, l.next); }
  }

  lemma RunRoom(code: seq<Byte>, c: Ctx, ket: nat, cap: nat, cap': nat, from: nat)
    requires from <= |c.s| && cap <= cap' && Run(code, c, ket, cap, from).Found?
    ensures Run(code, c, ket, cap', from) == Run(code, c, ket, cap, from)
  {
    hide EndsFrom, BranchStarts;
    EndsRoom(code, c, ket, cap, cap', from, from, BranchStarts(code, 0));
  }
}
