/** Which bytes the items accept, listed, and that match() accepts just these. */
module ByteTables {
  import opened Bytes
  import opened Code
  import opened Semantics
  import opened Machine
  import opened Pattern
  import opened Theorems
  import opened OneItem
  import Classes

  // ---------- lists ----------

  function Digits(): seq<Byte> { [48, 49, 50, 51, 52, 53, 54, 55, 56, 57] }

  function Upper(): seq<Byte> {
    [65, 66, 67, 68, 69, 70, 71, 72, 73, 74, 75, 76, 77, 78, 79, 80, 81, 82, 83, 84, 85, 86, 87, 88, 89, 90]
  }

  function Lower(): seq<Byte> {
    [97, 98, 99, 100, 101, 102, 103, 104, 105, 106, 107, 108, 109, 110, 111, 112, 113, 114, 115, 116, 117, 118, 119,
    120, 121, 122]
  }

  /** Tab, newline, form feed, carriage return and space. */
  function Spaces(): seq<Byte> { [9, 10, 12, 13, 32] }

  const UNDERSCORE: Byte := 95

  predicate WordByte(b: Byte) { b in Digits() || b in Upper() || b in Lower() || b == UNDERSCORE }

  /** One letter, once as a capital and once as a small one. */
  predicate TwoCases(a: Byte, b: Byte) {
    exists i :: 0 <= i < 26 && |Upper()| == |Lower()| == 26 && ((a == Upper()[i] && b == Lower()[i]) || (a == Lower()[i] && b == Upper()[i]))
  }

  lemma LettersAre()
    ensures |Upper()| == |Lower()| == 26 && forall i :: 0 <= i < 26 ==> Upper()[i] == 65 + i && Lower()[i] == 97 + i
  {
    UpperAre();
    LowerAre();
  }

  lemma UpperAre()
    ensures |Upper()| == 26 && forall i :: 0 <= i < 26 ==> Upper()[i] == 65 + i
  {
  }

  lemma LowerAre()
    ensures |Lower()| == 26 && forall i :: 0 <= i < 26 ==> Lower()[i] == 97 + i
  {
  }

  lemma DigitsAre()
    ensures |Digits()| == 10 && forall i :: 0 <= i < 10 ==> Digits()[i] == 48 + i
  {
  }

  lemma Listed(b: Byte)
    ensures (b in Digits() <==> 48 <= b <= 57) && (b in Upper() <==> 65 <= b <= 90) && (b in Lower() <==> 97 <= b <= 122)
  {
    LettersAre();
    DigitsAre();
    hide Digits, Upper, Lower;
    if 48 <= b <= 57 { assert Digits()[b - 48] == b; }
    if 65 <= b <= 90 { assert Upper()[b - 65] == b; }
    if 97 <= b <= 122 { assert Lower()[b - 97] == b; }
  }

  lemma CasesAre(a: Byte, b: Byte)
    ensures TwoCases(a, b) <==> (65 <= a <= 90 && b == a + 32) || (65 <= b <= 90 && a == b + 32)
  {
    LettersAre();
    hide Upper, Lower;
    if 65 <= a <= 90 { assert Upper()[a - 65] == a && Lower()[a - 65] == a + 32; }
    if 65 <= b <= 90 { assert Upper()[b - 65] == b && Lower()[b - 65] == b + 32; }
  }

  // ---------- match() on one item ----------

  /** match() takes one byte if takes says so, and does not match otherwise. */
  ghost predicate Takes(md: Md, st: State, e: seq<Byte>, takes: Byte -> bool) {
    Asked(md, st, e) &&
    var o := Call(md, st, Begin(md), false);
    if md.mstart < |md.c.s| && takes(md.c.s[md.mstart]) then o.rc == MATCH && o.st.endPtr == md.mstart + 1 else o.rc == NOMATCH
  }

  lemma ItemTakes(md: Md, st: State, x: Single, takes: Byte -> bool)
    requires ValidSingle(x, md.c.nocase) && |EncOne(x)| < 200 && Asked(md, st, EncOne(x))
    requires forall b: Byte :: takes(b) <==> Accepts(x, b)
    ensures Takes(md, st, EncOne(x), takes)
  {
    hide Call, Accepts;
    OneCall(md, st, Atom(x, NoQ));
  }

  /** What \d \D \s \S \w \W stand for, and the dot without and with PCRE_DOTALL. */
  predicate Typed(op: Byte, b: Byte) {
    if op == OP_DIGIT then b in Digits()
    else if op == OP_NOT_DIGIT then b !in Digits()
    else if op == OP_WHITESPACE then b in Spaces()
    else if op == OP_NOT_WHITESPACE then b !in Spaces()
    else if op == OP_WORDCHAR then WordByte(b)
    else if op == OP_NOT_WORDCHAR then !WordByte(b)
    else op == OP_ALLANY || b != 10
  }

  lemma TypedIs(op: Byte, b: Byte)
    requires OP_NOT_DIGIT <= op <= OP_ALLANY
    ensures Typed(op, b) <==> TypeOk(op, b)
  {
    Listed(b);
    hide Digits, Upper, Lower;
  }

  lemma TypesTake(md: Md, st: State, op: Byte)
    requires OP_NOT_DIGIT <= op <= OP_ALLANY && Asked(md, st, [op])
    ensures Takes(md, st, [op], (b: Byte) => Typed(op, b))
  {
    hide Typed, TypeOk;
    forall b: Byte ensures Typed(op, b) <==> TypeOk(op, b) { TypedIs(op, b); }
    ItemTakes(md, st, Type(op), (b: Byte) => Typed(op, b));
  }

  /** A literal takes its own byte, or without regard to case the other case of a letter. */
  lemma LiteralTakes(md: Md, st: State, c: Byte)
    requires var e := [if md.c.nocase then OP_CHARNC else OP_CHAR, c]; Asked(md, st, e)
    ensures Takes(md, st, [if md.c.nocase then OP_CHARNC else OP_CHAR, c], (b: Byte) => b == c || (md.c.nocase && TwoCases(c, b)))
  {
    forall b: Byte ensures TwoCases(c, b) <==> (65 <= c <= 90 && b == c + 32) || (65 <= b <= 90 && c == b + 32) { CasesAre(c, b); }
    ItemTakes(md, st, Lit(c, md.c.nocase), (b: Byte) => b == c || (md.c.nocase && TwoCases(c, b)));
  }

  /** A class of all bytes but one takes the others. */
  lemma NotTakes(md: Md, st: State, c: Byte)
    requires Asked(md, st, [OP_NOT, c])
    ensures Takes(md, st, [OP_NOT, c], (b: Byte) => b != c && !(md.c.nocase && TwoCases(c, b)))
  {
    forall b: Byte ensures TwoCases(c, b) <==> (65 <= c <= 90 && b == c + 32) || (65 <= b <= 90 && c == b + 32) { CasesAre(c, b); }
    ItemTakes(md, st, NotLit(c, md.c.nocase), (b: Byte) => b != c && !(md.c.nocase && TwoCases(c, b)));
  }

  // ---------- class maps ----------

  function Sum(e: seq<bool>): (v: nat)
    ensures v < Two(|e|)
  {
    if e == [] then 0 else (if e[0] then 1 else 0) + 2 * Sum(e[1..])
  }

  function Two(n: nat): nat { if n == 0 then 1 else 2 * Two(n - 1) }

  lemma TwoEight()
    ensures Two(8) == 256
  {
    assert Two(4) == 16;
  }

  /** Eight bytes from 8 * k on, as bits from the lowest up. */
  function Eight(f: Byte -> bool, k: nat): seq<bool>
    requires k < 32
  {
    seq(8, j requires 0 <= j < 8 => f(8 * k + j))
  }

  /** The 32 bytes for a set of bytes: bit b % 8 of byte b / 8 stands for b. */
  function MapOf(f: Byte -> bool): (m: seq<Byte>)
    ensures |m| == 32
  {
    TwoEight();
    seq(32, k requires 0 <= k < 32 => Sum(Eight(f, k)))
  }

  /** The bits of a sum of different powers of two. */
  lemma {:induction false} BitOf(v: nat, e: seq<bool>, i: nat)
    requires v == Sum(e) && i < |e| && i < 8
    ensures v / Pow2(i) % 2 == if e[i] then 1 else 0
    decreases i
  {
    if i > 0 {
      Halve(v, i);
      hide Pow2;
      assert v / 2 == Sum(e[1..]) && e[1..][i - 1] == e[i];
      hide Sum;
      BitOf(v / 2, e[1..], i - 1);
    }
  }

  lemma Halve(v: nat, i: nat)
    requires 0 < i < 8
    ensures v / 2 / Pow2(i - 1) == v / Pow2(i)
  {
    match i
    case 1 => assert v / 2 / 1 == v / 2;
    case 2 => assert v / 2 / 2 == v / 4;
    case 3 => assert v / 2 / 4 == v / 8;
    case 4 => assert v / 2 / 8 == v / 16;
    case 5 => assert v / 2 / 16 == v / 32;
    case 6 => assert v / 2 / 32 == v / 64;
    case _ => assert v / 2 / 64 == v / 128;
  }

  lemma MapHolds(f: Byte -> bool, b: Byte)
    ensures BitSet(MapOf(f), b) <==> f(b)
  {
    var e := Eight(f, b / 8);
    assert e[b % 8] == f(b);
    BitOf(MapOf(f)[b / 8], e, b % 8);
  }

  /** A class with the map of a set takes the bytes of the set. */
  lemma ClassTakes(md: Md, st: State, neg: bool, f: Byte -> bool)
    requires Asked(md, st, [if neg then OP_NCLASS else OP_CLASS] + MapOf(f))
    ensures Takes(md, st, [if neg then OP_NCLASS else OP_CLASS] + MapOf(f), f)
  {
    hide MapOf;
    forall b: Byte ensures f(b) <==> BitSet(MapOf(f), b) { MapHolds(f, b); }
    ItemTakes(md, st, Class(neg, MapOf(f)), f);
  }

  // ---------- items of a class ----------

  /** What the items of a class name: a character or range itself and, without regard to
      case, the letters whose other case it holds; a type its listed bytes, or all other
      characters. */
  predicate NamedBy(m: Classes.Mode, i: Classes.ClassItem, x: nat) {
    match i
    case Char(c) => x == c || (m.caseless && x < 256 && c < 256 && TwoCases(x, c))
    case Range(lo, hi) =>
      lo <= x <= hi || (m.caseless && x < 256 && exists k :: 0 <= k < 26 && OtherCase(x, k, lo, hi))
    case Type(word, neg) => (x < 256 && if word then WordByte(x) else x in Digits()) != neg
  }

  /** x is the letter number k, and its other case lies between lo and hi. */
  predicate OtherCase(x: nat, k: nat, lo: nat, hi: nat) {
    |Upper()| == |Lower()| == 26 && k < 26 &&
    ((x == Upper()[k] && lo <= Lower()[k] <= hi) || (x == Lower()[k] && lo <= Upper()[k] <= hi))
  }

  lemma NamedIff(m: Classes.Mode, i: Classes.ClassItem, x: nat)
    ensures NamedBy(m, i, x) <==> Classes.Covers(m, i, x)
  {
    hide Digits, Upper, Lower, TwoCases;
    if x < 256 { Listed(x); }
    LettersAre();
    if i.Char? && x < 256 && i.c < 256 { CasesAre(x, i.c); }
    if i.Range? && m.caseless && x < 256 {
      if 65 <= x <= 90 { assert OtherCase(x, x - 65, i.lo, i.hi) <==> i.lo <= x + 32 <= i.hi; }
      if 97 <= x <= 122 { assert OtherCase(x, x - 97, i.lo, i.hi) <==> i.lo <= x - 32 <= i.hi; }
    }
  }
}
