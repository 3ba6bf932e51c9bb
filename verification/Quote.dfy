/** RE::QuoteMeta, and how a quoted string reads as a pattern. */
module Quote {
  import opened Bytes
  import opened Code
  import opened Layout
  import opened Semantics
  import opened Shape
  import opened Pattern
  import opened Lowering
  import opened Preservation
  import opened Emptiness
  import opened Escape
  import U = Utf8
  import ByteTables
  import Machine
  import Simulation
  import Theorems

  /** The compile options that a literal can notice. */
  datatype Opts = Opts(extended: bool, extra: bool, bracount: nat)

  // ---------- quoting ----------

  /** ASCII letters, digits and the underscore; bytes of 128 and more are left alone. */
  predicate Plain(b: Byte) { IsWord(b) || b >= 128 }

  function QuoteByte(b: Byte): seq<Byte> { if b == 0 then [92, 48] else if Plain(b) then [b] else [92, b] }

  function Quoted(s: seq<Byte>): seq<Byte> { if s == [] then [] else QuoteByte(s[0]) + Quoted(s[1..]) }

  method QuoteMeta(unquoted: seq<Byte>) returns (result: seq<Byte>)
    ensures result == Quoted(unquoted)
  {
    result := [];
    var i := 0;
    while i < |unquoted|
      invariant 0 <= i <= |unquoted| && Quoted(unquoted) == result + Quoted(unquoted[i..])
    {
      var b := unquoted[i];
      QuotedNext(result, unquoted, i);
      if b == 0 {
        result := result + [92, 48];
      } else if (b < 97 || b > 122) && (b < 65 || b > 90) && (b < 48 || b > 57) && b != 95 && b < 128 {
        result := result + [92, b];
      } else {
        result := result + [b];
      }
      i := i + 1;
    }
  }

  lemma QuotedNext(before: seq<Byte>, s: seq<Byte>, i: nat)
    requires i < |s|
    ensures before + Quoted(s[i..]) == (before + QuoteByte(s[i])) + Quoted(s[i + 1..])
  {
    assert s[i..][1..] == s[i + 1..];
    var a, b := QuoteByte(s[i]), Quoted(s[i + 1..]);
    assert Quoted(s[i..]) == a + b;
    hide Quoted, QuoteByte;
    assert before + (a + b) == (before + a) + b;
  }

  // ---------- what is quoted ----------

  /** Only letters, digits, the underscore and the bytes from 128 on are left as they are. */
  lemma KeptIff(b: Byte)
    ensures QuoteByte(b) == [b] <==> ByteTables.WordByte(b) || b >= 128
    ensures QuoteByte(b) != [b] ==> QuoteByte(b) == [92, if b == 0 then 48 else b]
  {
    ByteTables.Listed(b);
    hide ByteTables.Digits, ByteTables.Upper, ByteTables.Lower;
  }

  /** A character in front, of as many bytes as it has. */
  lemma {:induction false} OctetsShift(pre: seq<Byte>, t: seq<Byte>, p: nat)
    requires p <= |t|
    ensures U.Octets(pre + t, |pre| + p) <==> U.Octets(t, p)
    decreases |t| - p
  {
    var all := pre + t;
    if p < |t| {
      var n := U.Width(t, p);
      assert all[|pre| + p] == t[p];
      U.OctetsStep(t, p);
      U.OctetsStep(all, |pre| + p);
      if p + n <= |t| {
        assert all[|pre| + p..|pre| + p + n] == t[p..p + n];
        OctetsShift(pre, t, p + n);
        assert |pre| + (p + n) == |pre| + p + n;
      }
    }
    hide U.Octets, U.IsChar;
  }

  lemma CharFirst(ch: seq<Byte>, t: seq<Byte>)
    requires ch != [] && U.IsChar(ch)
    ensures U.Octets(ch + t, 0) <==> U.Octets(t, 0)
  {
    assert (ch + t)[0..0 + |ch|] == ch;
    U.CharWidth(ch + t, 0, |ch|);
    U.OctetsStep(ch + t, 0);
    OctetsShift(ch, t, 0);
    hide U.Octets, U.IsChar;
  }

  lemma {:induction false} HighKept(s: seq<Byte>, n: nat)
    requires n <= |s| && forall i :: 0 <= i < n ==> s[i] >= 128
    ensures Quoted(s) == s[..n] + Quoted(s[n..])
    decreases n
  {
    if n > 0 {
      HighKept(s[1..], n - 1);
      assert s[1..][n - 1..] == s[n..] && [s[0]] + s[1..][..n - 1] == s[..n];
    }
  }

  lemma {:induction false} HighBefore(s: seq<Byte>, n: nat)
    requires n <= |Quoted(s)| && forall i :: 0 <= i < n ==> Quoted(s)[i] >= 128
    ensures n <= |s| && Quoted(s)[..n] == s[..n]
    decreases n
  {
    if n > 0 {
      assert s != [] && Quoted(s)[0] == QuoteByte(s[0])[0];
      assert Quoted(s)[1..] == Quoted(s[1..]);
      HighBefore(s[1..], n - 1);
      assert Quoted(s)[..n] == [s[0]] + Quoted(s)[1..][..n - 1];
    }
  }

  lemma HighChar(ch: seq<Byte>)
    requires U.IsChar(ch) && ch != [] && ch[0] >= 128
    ensures |ch| > 1 && forall i :: 0 <= i < |ch| ==> ch[i] >= 128
  {
  }

  /** A quoted string is well-formed UTF-8 exactly if the string is. */
  lemma {:induction false} QuotedOctets(s: seq<Byte>)
    ensures U.Octets(Quoted(s), 0) <==> U.Octets(s, 0)
    decreases |s|
  {
    hide U.Octets, U.IsChar;
    if s == [] {
    } else if s[0] < 128 {
      var b, q := s[0], QuoteByte(s[0]);
      QuotedOctets(s[1..]);
      assert U.IsChar([b]) && U.IsChar([92]) && U.IsChar([q[|q| - 1]]) by { OneByteChar(b); OneByteChar(92); OneByteChar(q[|q| - 1]); }
      CharFirst([b], s[1..]);
      assert [b] + s[1..] == s;
      CharFirst([q[|q| - 1]], Quoted(s[1..]));
      if |q| == 2 {
        CharFirst([92], [q[1]] + Quoted(s[1..]));
        assert [92] + ([q[1]] + Quoted(s[1..])) == Quoted(s);
      }
    } else {
      var n, out := U.Width(s, 0), Quoted(s);
      assert out[0] == s[0];
      U.OctetsStep(s, 0);
      U.OctetsStep(out, 0);
      if U.CharAt(s, 0, n) {
        HighChar(s[0..0 + n]);
        assert forall i :: 0 <= i < n ==> s[i] == s[0..0 + n][i];
        HighKept(s, n);
        QuotedOctets(s[n..]);
        CharFirst(s[..n], s[n..]);
        CharFirst(s[..n], Quoted(s[n..]));
        assert s[..n] + s[n..] == s && s[0..0 + n] == s[..n];
      } else if U.CharAt(out, 0, n) {
        CharBefore(s, n);
      }
    }
  }

  lemma CharBefore(s: seq<Byte>, n: nat)
    requires s != [] && s[0] >= 128 && U.CharAt(Quoted(s), 0, n)
    ensures U.CharAt(s, 0, n)
  {
    var out := Quoted(s);
    assert out[0] == s[0];
    hide Quoted, U.IsChar;
    HighChar(out[0..0 + n]);
    assert forall i :: 0 <= i < n ==> out[i] == out[0..0 + n][i];
    HighBefore(s, n);
    assert s[0..0 + n] == out[0..0 + n];
  }

  lemma OneByteChar(b: Byte)
    requires b < 128
    ensures U.IsChar([b])
  {
  }

  // ---------- reading ----------

  /** What stands at a place of a pattern: a literal character, the end, something to
      pass over, or anything else (a metacharacter, a special escape, an error). */
  datatype Token = Literal(c: nat, next: nat) | End | Blank(next: nat) | Other

  /** is_counted_repeat. */
  predicate IsCounted(pat: seq<Byte>, p: nat) {
    IsDigit(Ch(pat, p)) &&
    var q := Decimal(pat, p, 0).last + 1;
    Ch(pat, q) == 125 ||
    (Ch(pat, q) == 44 &&
     (Ch(pat, q + 1) == 125 || (IsDigit(Ch(pat, q + 1)) && Ch(pat, Decimal(pat, q + 1, 0).last + 1) == 125)))
  }

  /** The place behind a comment that begins before p. */
  function PastComment(pat: seq<Byte>, p: nat): (q: nat)
    ensures p <= q
    decreases |pat| - p
  {
    if p >= |pat| || pat[p] == 0 then p else if pat[p] == NEWLINE then p + 1 else PastComment(pat, p + 1)
  }

  /** The switch of compile_branch, outside \Q...\E. */
  function TokenAt(pat: seq<Byte>, p: nat, o: Opts): (t: Token)
    ensures t.Blank? ==> t.next > p && p < |pat|
    ensures t.Literal? ==> t.next > p && p < |pat|
  {
    var c := Ch(pat, p);
    if c == 0 then End
    else if o.extended && IsSpace(c) then Blank(p + 1)
    else if o.extended && c == 35 then
      var q := PastComment(pat, p + 1);
      if q > p + 1 && Ch(pat, q - 1) == NEWLINE then Blank(q) else End
    else if c in {124, 41, 94, 36, 46, 91, 40, 42, 43, 63} || (c == 123 && IsCounted(pat, p + 1)) then Other
    else if c == 92 then
      var e := CheckEscape(pat, p, o.bracount, o.extra, false);
      if e.Data? && e.last >= p then Literal(e.c, e.last + 1) else Other
    else Literal(c, p + 1)
  }

  const META := "|)^$.[(*+?"

  /** Outside extended mode a byte is no literal exactly if it is one of the
      metacharacters, or opens a counted repeat. */
  lemma MetaIff(pat: seq<Byte>, p: nat, o: Opts)
    requires Ch(pat, p) != 0 && Ch(pat, p) != 92 && !o.extended
    ensures TokenAt(pat, p, o) ==
      if (exists i :: 0 <= i < |META| && META[i] as int == Ch(pat, p)) || (Ch(pat, p) == '{' as int && IsCounted(pat, p + 1)) then Other
      else Literal(Ch(pat, p), p + 1)
  {
    hide IsCounted;
    var c := Ch(pat, p);
    var at := if c == 124 then 0 else if c == 41 then 1 else if c == 94 then 2 else if c == 36 then 3 else if c == 46 then 4
      else if c == 91 then 5 else if c == 40 then 6 else if c == 42 then 7 else if c == 43 then 8 else 9;
    assert c in {124, 41, 94, 36, 46, 91, 40, 42, 43, 63} ==> META[at] as int == c;
  }

  /** {n}, {n,} and {n,m} are counted repeats; what does not begin with a digit is none. */
  lemma CountedReads(n: nat, m: nat, rest: seq<Byte>)
    ensures IsCounted(Written(n) + [125] + rest, 0) && IsCounted(Written(n) + [44, 125] + rest, 0)
    ensures IsCounted(Written(n) + [44] + Written(m) + [125] + rest, 0)
    ensures rest == [] || !IsDigit(rest[0]) ==> !IsCounted(rest, 0)
  {
    var v, w := Written(n), Written(m);
    hide Written, IsCounted;
    CountedOne(v, rest);
    CountedTwo(v, w, rest);
    NotCounted(rest);
  }

  lemma NotCounted(rest: seq<Byte>)
    ensures rest == [] || !IsDigit(rest[0]) ==> !IsCounted(rest, 0)
  {
    hide Decimal;
  }

  lemma CountedOne(v: seq<Byte>, rest: seq<Byte>)
    requires v != [] && forall i :: 0 <= i < |v| ==> IsDigit(v[i])
    ensures IsCounted(v + [125] + rest, 0) && IsCounted(v + [44, 125] + rest, 0)
  {
    hide Decimal;
    var a, b := v + [125] + rest, v + [44, 125] + rest;
    assert a[0..0 + |v|] == v && a[|v|] == 125 && b[0..0 + |v|] == v && b[|v|] == 44 && b[|v| + 1] == 125;
    DigitsEnd(a, 0, v);
    DigitsEnd(b, 0, v);
  }

  lemma CountedTwo(v: seq<Byte>, w: seq<Byte>, rest: seq<Byte>)
    requires v != [] && w != [] && (forall i :: 0 <= i < |v| ==> IsDigit(v[i])) && forall i :: 0 <= i < |w| ==> IsDigit(w[i])
    ensures IsCounted(v + [44] + w + [125] + rest, 0)
  {
    hide Decimal;
    var e := v + [44] + w + [125] + rest;
    assert e[0..0 + |v|] == v && e[|v|] == 44;
    assert e[|v| + 1..|v| + 1 + |w|] == w && e[|v| + 1 + |w|] == 125;
    DigitsEnd(e, 0, v);
    DigitsEnd(e, |v| + 1, w);
  }

  /** A run of digits at p, up to its end. */
  lemma DigitsEnd(pat: seq<Byte>, p: nat, w: seq<Byte>)
    requires w != [] && p + |w| < |pat| && pat[p..p + |w|] == w && (forall i :: 0 <= i < |w| ==> IsDigit(w[i])) && !IsDigit(pat[p + |w|])
    ensures IsDigit(pat[p]) && Decimal(pat, p, 0).last == p + |w| - 1
  {
    assert pat[p] == pat[p..p + |w|][0];
    assert pat[p + 1..p + 1 + |w[1..]|] == pat[p..p + |w|][1..] == w[1..];
    DecimalReads(pat, p, w[1..], 0);
    DecimalStops(pat, p + |w[1..]|, Value(w[1..], 0));
  }

  /** The literals from p on, as far as there is nothing else; whole when that is the end
      of the pattern. */
  datatype Reading = Reading(lits: seq<nat>, whole: bool)

  function Read(pat: seq<Byte>, p: nat, o: Opts): Reading
    decreases |pat| - p
  {
    match TokenAt(pat, p, o)
    case Literal(c, next) =>
      var r := Read(pat, next, o);
      Reading([c] + r.lits, r.whole)
    case Blank(next) => Read(pat, next, o)
    case End => Reading([], true)
    case Other => Reading([], false)
  }

  /** The literal characters that compile_branch would emit from the start of a pattern. */
  method Literals(pat: seq<Byte>, o: Opts) returns (lits: seq<nat>, whole: bool)
    ensures Reading(lits, whole) == Read(pat, 0, o)
  {
    hide CheckEscape, IsCounted, PastComment, IsSpace, Read;
    lits := [];
    var ptr := 0;
    while true
      invariant ptr >= 0
      invariant var r := Read(pat, ptr, o); Read(pat, 0, o) == Reading(lits + r.lits, r.whole)
      decreases |pat| - ptr
    {
      ReadOn(pat, ptr, o);
      var c := Ch(pat, ptr);
      if c == 0 { return lits, true; }
      if o.extended && IsSpace(c) {
        ptr := ptr + 1;
        continue;
      }
      if o.extended && c == 35 {
        var q := SkipComment(pat, ptr + 1);
        if q == ptr + 1 || Ch(pat, q - 1) != NEWLINE { return lits, true; }
        ptr := q;
        continue;
      }
      if c in {124, 41, 94, 36, 46, 91, 40, 42, 43, 63} || (c == 123 && IsCounted(pat, ptr + 1)) { return lits, false; }
      var value: nat, next := c, ptr + 1;
      if c == 92 {
        var e := Check(pat, ptr, o.bracount, o.extra, false);
        if !e.Data? || e.last < ptr { return lits, false; }
        value, next := e.c, e.last + 1;
      }
      ghost var rest := Read(pat, next, o);
      assert lits + ([value] + rest.lits) == (lits + [value]) + rest.lits;
      lits := lits + [value];
      ptr := next;
    }
  }

  lemma ReadOn(pat: seq<Byte>, p: nat, o: Opts)
    ensures Read(pat, p, o) ==
      match TokenAt(pat, p, o)
      case Literal(c, next) => Reading([c] + Read(pat, next, o).lits, Read(pat, next, o).whole)
      case Blank(next) => Read(pat, next, o)
      case End => Reading([], true)
      case Other => Reading([], false)
  {
    hide TokenAt;
  }

  method SkipComment(pat: seq<Byte>, p: nat) returns (q: nat)
    ensures q == PastComment(pat, p)
  {
    q := p;
    while Ch(pat, q) != 0
      invariant PastComment(pat, p) == PastComment(pat, q)
      decreases |pat| - q
    {
      if Ch(pat, q) == NEWLINE { return q + 1; }
      q := q + 1;
    }
  }

  // ---------- the round trip ----------

  /** A zero byte before an octal digit: quoted, the two run together. */
  predicate Merges(s: seq<Byte>, i: nat) { i + 1 < |s| && s[i] == 0 && IsOctal(s[i + 1]) }

  ghost predicate Clean(s: seq<Byte>) { forall i: nat :: !Merges(s, i) }

  /** A byte that is not zero reads back as itself. */
  lemma ByteReads(pat: seq<Byte>, p: nat, b: Byte, o: Opts)
    requires b != 0 && p + |QuoteByte(b)| <= |pat| && pat[p..p + |QuoteByte(b)|] == QuoteByte(b)
    ensures TokenAt(pat, p, o) == Literal(b, p + |QuoteByte(b)|)
  {
    hide EscapeDigit, EscapeG, EscapeX, EscapeC, IsCounted, PastComment;
    assert pat[p] == QuoteByte(b)[0];
    if !Plain(b) { assert pat[p + 1] == QuoteByte(b)[1]; }
  }

  /** \0 takes up to two octal digits with it. */
  lemma ZeroReads(pat: seq<Byte>, p: nat, o: Opts)
    requires p + 2 <= |pat| && pat[p] == 92 && pat[p + 1] == 48
    ensures var d := Octal(pat, p + 1, 2, 0);
      TokenAt(pat, p, o) == Literal(d.n, d.last + 1) && d.n < 64
  {
    hide EscapeG, EscapeX, EscapeC, IsCounted, PastComment;
    assert Table(48) == 0;
    OctalSmall(pat, p + 1, 2, 0);
  }

  lemma OctalSmall(pat: seq<Byte>, p: nat, k: nat, n: nat)
    requires k == 2 && n == 0
    ensures Octal(pat, p, 2, 0).n < 64
  {
    if IsOctal(Ch(pat, p + 1)) {
      var m: nat := Ch(pat, p + 1) - 48;
      assert Octal(pat, p + 1, 1, m) == if IsOctal(Ch(pat, p + 2)) then Octal(pat, p + 2, 0, m * 8 + (Ch(pat, p + 2) - 48)) else Number(m, p + 1);
    }
  }

  lemma QuotedFirst(s: seq<Byte>)
    requires s != []
    ensures Quoted(s) != [] && (IsOctal(Quoted(s)[0]) <==> IsOctal(s[0])) && (IsOctal(s[0]) ==> Quoted(s)[0] == s[0] && Quoted(s)[1..] == Quoted(s[1..]))
  {
    assert Quoted(s)[0] == QuoteByte(s[0])[0];
  }

  lemma Drop(pat: seq<Byte>, p: nat, b: Byte, s: seq<Byte>)
    requires p <= |pat| && s != [] && s[0] == b && pat[p..] == Quoted(s)
    ensures p + |QuoteByte(b)| <= |pat| && pat[p..p + |QuoteByte(b)|] == QuoteByte(b) && pat[p + |QuoteByte(b)|..] == Quoted(s[1..])
  {
    var n := |QuoteByte(b)|;
    assert pat[p..][..n] == pat[p..p + n] && pat[p..][n..] == pat[p + n..];
  }

  /** A number that ends at d.last has taken that many bytes of the quoted rest s. */
  predicate Took(pat: seq<Byte>, p: nat, s: seq<Byte>, d: Number, some: bool) {
    p <= d.last < |pat| && d.last - p <= |s| && pat[d.last + 1..] == Quoted(s[d.last - p..]) && (d.last > p <==> some)
  }

  lemma TookNone(pat: seq<Byte>, p: nat, s: seq<Byte>, n: nat)
    requires p < |pat| && pat[p + 1..] == Quoted(s)
    ensures Took(pat, p, s, Number(n, p), false)
  {
    hide Quoted;
    assert s[0..] == s;
  }

  lemma TookOne(pat: seq<Byte>, p: nat, s: seq<Byte>, d: Number, some: bool)
    requires s != [] && Took(pat, p + 1, s[1..], d, some)
    ensures Took(pat, p, s, d, true)
  {
    hide Quoted;
    assert s[1..][d.last - (p + 1)..] == s[d.last - p..];
  }

  /** Octal digits are taken from the quoted rest while there are any. */
  lemma {:induction false} OctalTakes(pat: seq<Byte>, p: nat, k: nat, n: nat, s: seq<Byte>)
    requires p < |pat| && pat[p + 1..] == Quoted(s)
    ensures Took(pat, p, s, Octal(pat, p, k, n), k > 0 && s != [] && IsOctal(s[0]))
    decreases k
  {
    hide Quoted, Octal, Took;
    NextOctal(pat, p, s);
    OctalStep(pat, p, k, n);
    if k > 0 && s != [] && IsOctal(s[0]) {
      var m: nat := n * 8 + (s[0] - 48);
      OctalTakes(pat, p + 1, k - 1, m, s[1..]);
      TookOne(pat, p, s, Octal(pat, p, k, n), k > 1 && s[1..] != [] && IsOctal(s[1..][0]));
    } else {
      TookNone(pat, p, s, n);
    }
  }

  lemma OctalStep(pat: seq<Byte>, p: nat, k: nat, n: nat)
    ensures Octal(pat, p, k, n) ==
      if k > 0 && IsOctal(Ch(pat, p + 1)) then Octal(pat, p + 1, k - 1, n * 8 + (Ch(pat, p + 1) - 48)) else Number(n, p)
  {
  }

  /** The quoted rest begins with an octal digit only if the rest does. */
  lemma NextOctal(pat: seq<Byte>, p: nat, s: seq<Byte>)
    requires p + 1 <= |pat| && pat[p + 1..] == Quoted(s)
    ensures IsOctal(Ch(pat, p + 1)) <==> s != [] && IsOctal(s[0])
    ensures s != [] && IsOctal(s[0]) ==> p + 2 <= |pat| && Ch(pat, p + 1) == s[0] && pat[p + 2..] == Quoted(s[1..])
  {
    if s != [] {
      QuotedFirst(s);
      hide Quoted;
      assert pat[p + 1..][0] == pat[p + 1];
      assert pat[p + 2..] == pat[p + 1..][1..];
    }
  }

  lemma ZeroCase(pat: seq<Byte>, p: nat, s: seq<Byte>, o: Opts)
    requires p <= |pat| && s != [] && s[0] == 0 && pat[p..] == Quoted(s)
    ensures var d := Octal(pat, p + 1, 2, 0);
      TokenAt(pat, p, o) == Literal(d.n, d.last + 1) && Took(pat, p + 1, s[1..], d, Merges(s, 0)) && (d.last == p + 1 ==> d.n == 0)
  {
    hide TokenAt, Took, Quoted;
    Drop(pat, p, 0, s);
    assert pat[p] == pat[p..p + 2][0] && pat[p + 1] == pat[p..p + 2][1];
    ZeroReads(pat, p, o);
    OctalTakes(pat, p + 1, 2, 0, s[1..]);
    OctalStep(pat, p + 1, 2, 0);
  }

  /** A clean string reads back exactly; any other one loses characters. */
  ghost predicate Back(r: Reading, s: seq<Byte>) {
    r.whole && |r.lits| <= |s| && (Clean(s) ==> r.lits == s) && (!Clean(s) ==> |r.lits| < |s|)
  }

  lemma {:induction false} ReadsBack(pat: seq<Byte>, p: nat, s: seq<Byte>, o: Opts)
    requires p <= |pat| && pat[p..] == Quoted(s)
    ensures Back(Read(pat, p, o), s)
    decreases |s|
  {
    hide TokenAt, Octal, Quoted, Back;
    if s == [] {
      AtEnd(pat, p, o);
      NoneBack();
    } else if s[0] != 0 {
      var next := p + |QuoteByte(s[0])|;
      Drop(pat, p, s[0], s);
      ByteReads(pat, p, s[0], o);
      ReadsBack(pat, next, s[1..], o);
      OneBack(Read(pat, next, o), s, s[0]);
    } else {
      ZeroCase(pat, p, s, o);
      var d := Octal(pat, p + 1, 2, 0);
      var taken: nat := d.last - (p + 1);
      assert s[1..][taken..] == s[taken + 1..];
      ReadsBack(pat, d.last + 1, s[taken + 1..], o);
      if taken == 0 {
        OneBack(Read(pat, d.last + 1, o), s, 0);
      } else {
        FewerBack(Read(pat, d.last + 1, o), s, taken, d.n);
      }
    }
  }

  lemma NoneBack()
    ensures Back(Reading([], true), [])
  {
  }

  lemma OneBack(r: Reading, s: seq<Byte>, b: Byte)
    requires s != [] && b == s[0] && Back(r, s[1..]) && (b == 0 ==> !Merges(s, 0))
    ensures Back(Reading([b as nat] + r.lits, r.whole), s)
  {
    CleanRest(s, 1);
    assert s == [s[0]] + s[1..];
  }

  lemma FewerBack(r: Reading, s: seq<Byte>, taken: nat, n: nat)
    requires Merges(s, 0) && 0 < taken < |s| && Back(r, s[taken + 1..])
    ensures Back(Reading([n] + r.lits, r.whole), s)
  {
  }

  lemma AtEnd(pat: seq<Byte>, p: nat, o: Opts)
    requires p <= |pat| && pat[p..] == Quoted([])
    ensures TokenAt(pat, p, o) == End
  {
  }

  lemma CleanRest(s: seq<Byte>, k: nat)
    requires k == 1 <= |s| && (s[0] == 0 ==> |s| == 1 || !IsOctal(s[1]))
    ensures Clean(s) <==> Clean(s[1..])
  {
    forall i: nat ensures Merges(s[1..], i) == Merges(s, i + 1) { }
    if !Clean(s) {
      var i: nat :| Merges(s, i);
      if i > 0 { assert Merges(s[1..], i - 1); }
    }
    if !Clean(s[1..]) {
      var i: nat :| Merges(s[1..], i);
      assert Merges(s, i + 1);
    }
  }

  /** Read as a pattern, a quoted string is its own characters as literals, in order:
      exactly for the strings in which no zero byte is followed by an octal digit. */
  lemma QuoteReadsBack(s: seq<Byte>, o: Opts)
    ensures Read(Quoted(s), 0, o) == Reading(s, true) <==> Clean(s)
  {
    assert Quoted(s)[0..] == Quoted(s);
    ReadsBack(Quoted(s), 0, s, o);
  }

  /** In particular for all strings without a zero byte. */
  lemma NoZeroReadsBack(s: seq<Byte>, o: Opts)
    requires 0 !in s
    ensures Read(Quoted(s), 0, o) == Reading(s, true)
  {
    QuoteReadsBack(s, o);
  }

  /** A zero and the digit 1: the pattern \01 stands for the byte 1. */
  lemma ZeroOne(o: Opts)
    ensures Quoted([0, 49]) == [92, 48, 49] && Read(Quoted([0, 49]), 0, o) == Reading([1], true)
  {
    var pat: seq<Byte> := [92, 48, 49];
    assert Quoted([49]) == [49] + Quoted([]) by { assert [49 as Byte][1..] == []; }
    assert Quoted([0, 49]) == [92, 48] + Quoted([49]) by { assert [0 as Byte, 49][1..] == [49]; }
    ZeroReads(pat, 0, o);
    assert Octal(pat, 2, 1, 1) == Number(1, 2);
    assert Octal(pat, 1, 2, 0) == Octal(pat, 2, 1, 1);
    hide TokenAt, Octal;
    AtEnd(pat, 3, o);
    assert Read(pat, 3, o) == Reading([], true);
  }

  // ---------- what it matches ----------

  /** A pattern of literals, matched with regard to case. */
  function Literally(s: seq<Byte>): Branch { if s == [] then Empty else Then(Atom(Lit(s[0], false), NoQ), Literally(s[1..])) }

  predicate StandsAt(c: Ctx, s: seq<Byte>, p: nat) { p + |s| <= |c.s| && c.s[p..p + |s|] == s }

  lemma StandsOn(c: Ctx, s: seq<Byte>, p: nat)
    requires s != []
    ensures StandsAt(c, s, p) <==> p < |c.s| && c.s[p] == s[0] && StandsAt(c, s[1..], p + 1)
  {
    if p + |s| <= |c.s| {
      assert c.s[p..p + |s|] == [c.s[p]] + c.s[p + 1..p + |s|];
      assert s == [s[0]] + s[1..];
    }
  }

  lemma {:induction false} LiteralWays(c: Ctx, s: seq<Byte>, n: nat, r: Res)
    requires r.pos <= |c.s|
    ensures SBranch(c, Literally(s), n, r) == if StandsAt(c, s, r.pos) then [r.(pos := r.pos + |s|)] else []
    decreases |s|
  {
    hide StandsAt;
    if s == [] {
      EmptyStands(c, r.pos);
    } else {
      StandsOn(c, s, r.pos);
      var b := Literally(s[1..]);
      var rs := if r.pos < |c.s| && c.s[r.pos] == s[0] then [r.(pos := r.pos + 1)] else [];
      OneLiteral(c, s[0], n, r);
      assert SBranch(c, Literally(s), n, r) == SEach(c, b, n, r.pos, rs);
      if rs != [] {
        LiteralWays(c, s[1..], n, rs[0]);
        assert SEach(c, b, n, r.pos, rs) == SBranch(c, b, n, rs[0]) + SEach(c, b, n, r.pos, []);
      }
    }
  }

  lemma EmptyStands(c: Ctx, p: nat)
    requires p <= |c.s|
    ensures StandsAt(c, [], p)
  {
  }

  lemma OneLiteral(c: Ctx, b: Byte, n: nat, r: Res)
    requires r.pos <= |c.s|
    ensures SItem(c, Atom(Lit(b, false), NoQ), n, r) == if r.pos < |c.s| && c.s[r.pos] == b then [r.(pos := r.pos + 1)] else []
  {
    var x := Lit(b, false);
    if r.pos < |c.s| { assert RunsOut(c, x, r.pos + 1); }
    assert Semantics.Runs(c, x, 1, 1, false, r.pos) == if AcceptsAt(c, x, r.pos) then [r.pos + 1] else [];
  }

  predicate RunsOut(c: Ctx, x: Single, p: nat)
    requires p <= |c.s|
  {
    Semantics.Runs(c, x, 0, 0, false, p) == [p]
  }

  lemma {:induction false} LiteralNodes(s: seq<Byte>)
    ensures ValidBranch(Literally(s), false) && Count(Literally(s)) == 0 && Safe(Literally(s)) && NoAtomic(Literally(s))
    ensures var ns := LowerBranch(Literally(s), 0, false); Guarded(ns) && Calm(ns, true) && |EncNodes(ns)| == 2 * |s|
    decreases |s|
  {
    if s != [] { LiteralNodes(s[1..]); }
  }

  lemma LiteralUsable(s: seq<Byte>)
    requires 2 * |s| + 7 <= MAX_PATTERN_SIZE
    ensures Theorems.Usable(Literally(s), NoMore, false)
  {
    LiteralNodes(s);
    hide LowerBranch, Literally, EncNodes, Guarded, Calm, Safe, NoAtomic, ValidBranch, Count;
    var g := Compile(Literally(s), NoMore, false);
    assert LowerMore(NoMore, 0, false) == NoAlt && EncAlts(NoAlt) == [];
    assert |EncProgram(g)| == 2 * |s| + 7;
    assert TameGroup(g);
  }

  function LiteralCode(s: seq<Byte>): seq<Byte> {
    LiteralNodes(s);
    EncProgram(Compile(Literally(s), NoMore, false))
  }

  /** A quoted string as a pattern, if it is not too long to be compiled: match() finds
      that string and no other of its length. */
  lemma QuotedMatchesItself(md: Machine.Md, st: Machine.State, s: seq<Byte>)
    requires 2 * |s| + 7 <= MAX_PATTERN_SIZE && md.code == LiteralCode(s) && !md.c.nocase
    requires md.offsetEnd % 3 == 0 && |st.vec| == md.offsetEnd && st.count <= md.limit && md.mstart <= |md.c.s|
    ensures var o := Machine.Call(md, st, Theorems.Begin(md), false);
      || o.rc == Machine.MATCHLIMIT || o.rc == Machine.RECURSIONLIMIT
      || (o.rc == Machine.MATCH && StandsAt(md.c, s, md.mstart) && o.st.endPtr == md.mstart + |s|)
      || (o.rc == Machine.NOMATCH && !(StandsAt(md.c, s, md.mstart) && (s != [] || !md.c.notempty)))
  {
    var r := Theorems.Start(md, st);
    assert r.pos == md.mstart;
    LiteralUsable(s);
    Theorems.MatchIsFirst(md, st, Literally(s), NoMore);
    LiteralWays(md.c, s, 0, r);
    hide Machine.Call, Theorems.Usable, Literally, StandsAt, SBranch;
    assert Theorems.Matches(md.c, Literally(s), NoMore, r) == SBranch(md.c, Literally(s), 0, r);
    OnlyOne(md.c, md.mstart, Theorems.Matches(md.c, Literally(s), NoMore, r));
  }

  lemma OnlyOne(c: Ctx, ms: nat, rs: seq<Res>)
    requires |rs| <= 1
    ensures Simulation.Filter(c, ms, rs) == if rs != [] && !(c.notempty && rs[0].pos == ms) then rs else []
  {
    assert Simulation.Filter(c, ms, []) == [];
    if rs != [] { assert rs[1..] == []; }
  }
}
