/** Character classes: how the compiler collects one, in which form it is emitted, and
    the membership test of _pcre_xclass. */
module Classes {
  import opened Bytes
  import Utf8

  const XCL_NOT: nat := 1
  const XCL_MAP: nat := 2
  const XCL_END: Byte := 0
  const XCL_SINGLE: Byte := 1
  const XCL_RANGE: Byte := 2
  const ERR8: nat := 8

  datatype Mode = Mode(utf8: bool, caseless: bool)

  /** What stands between the brackets: a character, a range, or one of \d \D \w \W. */
  datatype ClassItem = Char(c: nat) | Range(lo: nat, hi: nat) | Type(word: bool, neg: bool)

  /** A range with its ends in the wrong order is an error of the pattern; a character
      must be one of the mode. */
  predicate ValidItem(m: Mode, i: ClassItem) {
    match i
    case Char(c) => c <= Top(m)
    case Range(lo, hi) => lo <= hi <= Top(m)
    case Type(_, _) => true
  }

  function Top(m: Mode): nat { if m.utf8 then Utf8.MAX_CODE else 255 }

  predicate Valid(m: Mode, items: seq<ClassItem>) { forall i :: 0 <= i < |items| ==> ValidItem(m, items[i]) }

  // ---------- the meaning ----------

  predicate InType(word: bool, x: nat) { x < 256 && if word then IsWord(x) else IsDigit(x) }

  /** x, or when case does not matter its other case, lies between lo and hi. Only
      characters below 256 have one. */
  predicate Folded(m: Mode, x: nat, lo: nat, hi: nat) { lo <= x <= hi || (m.caseless && x < 256 && lo <= Fcc(x) <= hi) }

  predicate Covers(m: Mode, i: ClassItem, x: nat) {
    match i
    case Char(c) => Folded(m, x, c, c)
    case Range(lo, hi) => Folded(m, x, lo, hi)
    case Type(word, neg) => InType(word, x) != neg
  }

  /** The set that the class names. */
  predicate Named(m: Mode, items: seq<ClassItem>, x: nat) { exists i :: 0 <= i < |items| && Covers(m, items[i], x) }

  // ---------- collecting ----------

  /** An item beyond the bit map: it is listed by its code points instead. */
  predicate Wide(m: Mode, hi: nat) { m.utf8 && (hi > 255 || (m.caseless && hi > 127)) }

  datatype Extra = Single(x: nat) | Span(lo: nat, hi: nat)

  /** The variables of the collecting loop: classbits, class_utf8data, class_utf8,
      should_flip_negation, class_charcount and class_lastchar. */
  datatype State = State(bits: seq<bool>, extra: seq<Extra>, utf8: bool, flip: bool, count: nat, last: int)

  /** The characters that an item puts in the map. */
  predicate Maps(m: Mode, i: ClassItem, x: nat) {
    match i
    case Char(c) => !Wide(m, c) && Folded(m, x, c, c)
    case Range(lo, hi) =>
      if !Wide(m, hi) then Folded(m, x, lo, hi) else m.caseless && lo <= 127 && Folded(m, x, lo, 127)
    case Type(word, neg) => InType(word, x) != neg
  }

  function Listed(m: Mode, i: ClassItem): seq<Extra> {
    match i
    case Char(c) => if Wide(m, c) then [Single(c)] else []
    case Range(lo, hi) => if !Wide(m, hi) then [] else if lo == hi then [Single(lo)] else [Span(lo, hi)]
    case Type(_, _) => []
  }

  predicate InExtra(e: Extra, x: nat) { if e.Single? then x == e.x else e.lo <= x <= e.hi }

  function Counted(m: Mode, i: ClassItem): nat
    requires ValidItem(m, i)
  {
    match i
    case Char(c) => if Wide(m, c) then 0 else 1
    case Range(lo, hi) =>
      if !Wide(m, hi) then hi - lo + 1 else if lo < hi && m.caseless && lo <= 127 then 128 - lo else 0
    case Type(_, _) => 2
  }

  function Last(m: Mode, i: ClassItem, last: int): int {
    match i
    case Char(c) => if Wide(m, c) then last else if m.caseless && c < 256 then Fcc(c) else c
    case Range(lo, hi) =>
      if lo == hi then (if Wide(m, hi) then last else if m.caseless && lo < 256 then Fcc(lo) else lo)
      else if !Wide(m, hi) then hi else if m.caseless && lo <= 127 then 127 else last
    case Type(_, _) => last
  }

  function Step(m: Mode, st: State, i: ClassItem): (out: State)
    requires |st.bits| == 256 && ValidItem(m, i)
    ensures |out.bits| == 256
  {
    State(seq(256, x requires 0 <= x < 256 => st.bits[x] || Maps(m, i, x)), st.extra + Listed(m, i),
          st.utf8 || Listed(m, i) != [], st.flip || (i.Type? && i.neg), st.count + Counted(m, i), Last(m, i, st.last))
  }

  function Init(): State { State(seq(256, _ => false), [], false, false, 0, -1) }

  function Build(m: Mode, items: seq<ClassItem>): (out: State)
    requires Valid(m, items)
    ensures |out.bits| == 256
  {
    if items == [] then Init() else Step(m, Build(m, items[..|items| - 1]), items[|items| - 1])
  }

  // ---------- emitting ----------

  /** The item in the code: a character, a negated one, a map (OP_CLASS or OP_NCLASS), or
      OP_XCLASS with its data. */
  datatype Compiled =
    | CharItem(nocase: bool, bytes: seq<Byte>)
    | NotItem(c: Byte)
    | MapItem(nclass: bool, bitmap: seq<Byte>)
    | XItem(data: seq<Byte>)

  function One(b: bool): nat { if b then 1 else 0 }

  function Twice(n: nat): (p: nat)
    ensures p > 0
  {
    if n == 0 then 1 else 2 * Twice(n - 1)
  }

  /** n bits from j on as a number, the lowest first. */
  function Binary(bits: seq<bool>, j: nat, n: nat): (v: nat)
    requires j + n <= |bits|
    ensures v < Twice(n)
    decreases n
  {
    if n == 0 then 0 else One(bits[j]) + 2 * Binary(bits, j + 1, n - 1)
  }

  function MapByte(bits: seq<bool>, k: nat): Byte
    requires |bits| == 256 && k < 32
  {
    assert Twice(8) == 256;
    Binary(bits, 8 * k, 8)
  }

  function MapBytes(bits: seq<bool>): (bitmap: seq<Byte>)
    requires |bits| == 256
    ensures |bitmap| == 32
  {
    seq(32, k requires 0 <= k < 32 => MapByte(bits, k))
  }

  function Inverted(bits: seq<bool>): (out: seq<bool>)
    ensures |out| == |bits|
  {
    seq(|bits|, x requires 0 <= x < |bits| => !bits[x])
  }

  predicate Fits(e: Extra) { if e.Single? then e.x <= Utf8.MAX_CODE else e.lo <= Utf8.MAX_CODE && e.hi <= Utf8.MAX_CODE }

  predicate AllFit(es: seq<Extra>) { forall i :: 0 <= i < |es| ==> Fits(es[i]) }

  function ExtraBytes(e: Extra): seq<Byte>
    requires Fits(e)
  {
    if e.Single? then [XCL_SINGLE] + Utf8.Encode(e.x) else [XCL_RANGE] + (Utf8.Encode(e.lo) + Utf8.Encode(e.hi))
  }

  function ListBytes(es: seq<Extra>): seq<Byte>
    requires AllFit(es)
  {
    if es == [] then [] else ExtraBytes(es[0]) + ListBytes(es[1..])
  }

  predicate OneChar(m: Mode, st: State, negate: bool) {
    st.count == 1 && !st.utf8 && 0 <= st.last < 256 && (!m.utf8 || !negate || st.last < 128)
  }

  function Flags(st: State, negate: bool): Byte {
    if negate then (if st.count > 0 then XCL_NOT + XCL_MAP else XCL_NOT) else if st.count > 0 then XCL_MAP else 0
  }

  /** The data of OP_XCLASS; an empty map is left out. */
  function XData(st: State, negate: bool): (data: seq<Byte>)
    requires |st.bits| == 256 && AllFit(st.extra)
  {
    [Flags(st, negate)] + (if st.count > 0 then MapBytes(st.bits) else []) + (ListBytes(st.extra) + [XCL_END])
  }

  /** The choice of the form, when the closing bracket has been reached. */
  function Finish(m: Mode, st: State, negate: bool): Compiled
    requires |st.bits| == 256 && AllFit(st.extra)
  {
    if OneChar(m, st, negate) then
      if negate then NotItem(st.last)
      else CharItem(m.caseless, if m.utf8 && st.last > 127 then Utf8.Encode(st.last) else [st.last])
    else if st.utf8 && !st.flip then XItem(XData(st, negate))
    else MapItem(negate != st.flip, MapBytes(if negate then Inverted(st.bits) else st.bits))
  }

  // ---------- the membership test ----------

  /** Reading the items from p on: is c in one of them? */
  predicate InList(c: nat, data: seq<Byte>, p: nat)
    decreases |data| - p
  {
    p < |data| && data[p] != XCL_END &&
    if data[p] == XCL_SINGLE then
      CharThere(data, p + 1) &&
      (c == Utf8.Decode(data, p + 1) || InList(c, data, p + 1 + Utf8.Width(data, p + 1)))
    else
      data[p] == XCL_RANGE && CharThere(data, p + 1) &&
      var q := p + 1 + Utf8.Width(data, p + 1);
      CharThere(data, q) &&
      (Utf8.Decode(data, p + 1) <= c <= Utf8.Decode(data, q) || InList(c, data, q + Utf8.Width(data, q)))
  }

  predicate CharThere(data: seq<Byte>, p: nat) { p < |data| && p + Utf8.Width(data, p) <= |data| }

  /** _pcre_xclass on well-formed data. */
  predicate InXClass(c: nat, data: seq<Byte>)
    requires |data| > 0 && (data[0] / 2 % 2 == 1 ==> |data| >= 33)
  {
    var negated, bitmap := data[0] % 2 == 1, data[0] / 2 % 2 == 1;
    ((bitmap && c < 256 && BitSet(data[1..33], c)) || InList(c, data, if bitmap then 33 else 1)) != negated
  }

  /** The data end in XCL_END, and all characters before it are complete. */
  predicate Complete(data: seq<Byte>, p: nat)
    decreases |data| - p
  {
    p < |data| &&
    (data[p] == XCL_END ||
     if data[p] == XCL_SINGLE then CharThere(data, p + 1) && Complete(data, p + 1 + Utf8.Width(data, p + 1))
     else
       data[p] == XCL_RANGE && CharThere(data, p + 1) &&
       var q := p + 1 + Utf8.Width(data, p + 1);
       CharThere(data, q) && Complete(data, q + Utf8.Width(data, q)))
  }

  method XClass(c: nat, data: seq<Byte>) returns (yes: bool)
    requires |data| > 0 && (data[0] / 2 % 2 == 1 ==> |data| >= 33) && Complete(data, if data[0] / 2 % 2 == 1 then 33 else 1)
    ensures yes == InXClass(c, data)
  {
    hide BitSet, Utf8.Decode, Utf8.Width;
    var negated, bitmap := data[0] % 2 == 1, data[0] / 2 % 2 == 1;
    if c < 256 {
      if bitmap && BitSet(data[1..33], c) { return !negated; }
    }
    var p: nat := if bitmap then 33 else 1;
    ghost var start := p;
    while data[p] != XCL_END
      invariant Complete(data, p) && InList(c, data, start) == InList(c, data, p)
      decreases |data| - p
    {
      var t := data[p];
      var x, next := Utf8.GetCharInc(data, p + 1);
      if t == XCL_SINGLE {
        if c == x { return !negated; }
      } else {
        var y;
        y, next := Utf8.GetCharInc(data, next);
        if x <= c <= y { return !negated; }
      }
      p := next;
    }
    return negated;
  }

  /** The characters that match() accepts for the item. */
  predicate Accepts(m: Mode, e: Compiled, x: nat)
    requires x <= Top(m) && (e.MapItem? ==> |e.bitmap| == 32)
    requires e.XItem? ==> |e.data| > 0 && (e.data[0] / 2 % 2 == 1 ==> |e.data| >= 33)
  {
    match e
    case CharItem(nocase, bytes) =>
      if nocase && |bytes| == 1 then x < 256 && (m.utf8 ==> x < 128) && Lcc(x) == Lcc(bytes[0])
      else bytes == if m.utf8 then Utf8.Encode(x) else [x]
    case NotItem(c) => if m.caseless then (if x < 256 then Lcc(x) else x) != Lcc(c) else x != c
    case MapItem(nclass, bitmap) => if x < 256 then BitSet(bitmap, x) else nclass
    case XItem(data) => InXClass(x, data)
  }

  // ---------- what has been collected ----------

  predicate MapsSome(m: Mode, items: seq<ClassItem>, x: nat) { exists i :: 0 <= i < |items| && Maps(m, items[i], x) }

  predicate InSome(es: seq<Extra>, x: nat) { exists i :: 0 <= i < |es| && InExtra(es[i], x) }

  predicate ListsSome(m: Mode, items: seq<ClassItem>, x: nat) { exists i :: 0 <= i < |items| && InSome(Listed(m, items[i]), x) }

  predicate Negative(i: ClassItem) { i.Type? && i.neg }

  predicate NegativeSome(items: seq<ClassItem>) { exists i :: 0 <= i < |items| && Negative(items[i]) }

  /** A lone character that fits in the map. */
  predicate Lone(m: Mode, i: ClassItem) { (i.Char? && !Wide(m, i.c)) || (i.Range? && i.lo == i.hi && !Wide(m, i.hi)) }

  lemma {:induction false} BuildMeans(m: Mode, items: seq<ClassItem>, x: nat)
    requires Valid(m, items)
    ensures var st := Build(m, items);
      (x < 256 ==> (st.bits[x] <==> MapsSome(m, items, x))) && (InSome(st.extra, x) <==> ListsSome(m, items, x)) &&
      (st.flip <==> NegativeSome(items))
    decreases |items|
  {
    hide Maps, InExtra, Listed, Counted, Last, ValidItem;
    if items != [] {
      var n := |items| - 1;
      var init, i := items[..n], items[n];
      assert items == init + [i];
      BuildMeans(m, init, x);
      InSomeJoin(Build(m, init).extra, Listed(m, i), x);
      assert MapsSome(m, items, x) <==> MapsSome(m, init, x) || Maps(m, i, x) by { SomeMaps(m, init, i, x); }
      assert ListsSome(m, items, x) <==> ListsSome(m, init, x) || InSome(Listed(m, i), x) by { SomeLists(m, init, i, x); }
      assert NegativeSome(items) <==> NegativeSome(init) || Negative(i) by { SomeNegative(init, i); }
    }
  }

  lemma SomeMaps(m: Mode, a: seq<ClassItem>, i: ClassItem, x: nat)
    ensures MapsSome(m, a + [i], x) <==> MapsSome(m, a, x) || Maps(m, i, x)
  {
    hide Maps;
    var all := a + [i];
    assert all[|a|] == i;
    if j :| 0 <= j < |a| && Maps(m, a[j], x) { assert all[j] == a[j]; }
    if j :| 0 <= j < |all| && Maps(m, all[j], x) { assert j < |a| ==> all[j] == a[j]; }
  }

  lemma SomeLists(m: Mode, a: seq<ClassItem>, i: ClassItem, x: nat)
    ensures ListsSome(m, a + [i], x) <==> ListsSome(m, a, x) || InSome(Listed(m, i), x)
  {
    hide Listed, InSome;
    var all := a + [i];
    assert all[|a|] == i;
    if j :| 0 <= j < |a| && InSome(Listed(m, a[j]), x) { assert all[j] == a[j]; }
    if j :| 0 <= j < |all| && InSome(Listed(m, all[j]), x) { assert j < |a| ==> all[j] == a[j]; }
  }

  lemma SomeNegative(a: seq<ClassItem>, i: ClassItem)
    ensures NegativeSome(a + [i]) <==> NegativeSome(a) || Negative(i)
  {
    var all := a + [i];
    assert all[|a|] == i;
    if j :| 0 <= j < |a| && Negative(a[j]) { assert all[j] == a[j]; }
    if j :| 0 <= j < |all| && Negative(all[j]) { assert j < |a| ==> all[j] == a[j]; }
  }

  lemma InSomeJoin(a: seq<Extra>, b: seq<Extra>, x: nat)
    ensures InSome(a + b, x) <==> InSome(a, x) || InSome(b, x)
  {
    hide InExtra;
    var all := a + b;
    if j :| 0 <= j < |a| && InExtra(a[j], x) { assert all[j] == a[j]; }
    if j :| 0 <= j < |b| && InExtra(b[j], x) { assert all[|a| + j] == b[j]; }
    if j :| 0 <= j < |all| && InExtra(all[j], x) { assert if j < |a| then all[j] == a[j] else all[j] == b[j - |a|]; }
  }

  /** The counters: no count, no bits; a count of one, one lone character. */
  lemma {:induction false} BuildCounts(m: Mode, items: seq<ClassItem>)
    requires Valid(m, items)
    ensures var st := Build(m, items);
      AllFit(st.extra) && (st.utf8 <==> st.extra != []) && (items == [] ==> st.count == 0 && !st.utf8) &&
      (st.count == 0 ==> forall x :: 0 <= x < 256 ==> !st.bits[x]) &&
      (items != [] && st.count == 0 ==> st.utf8) &&
      (st.count == 1 && !st.utf8 ==> |items| == 1 && Lone(m, items[0]))
    decreases |items|
  {
    if items != [] {
      var n := |items| - 1;
      var init, i := items[..n], items[n];
      BuildCounts(m, init);
      ItemCounts(m, i);
      hide Maps, Listed, Counted, Last, ValidItem, Lone;
    }
  }

  lemma ItemCounts(m: Mode, i: ClassItem)
    requires ValidItem(m, i)
    ensures AllFit(Listed(m, i))
    ensures Counted(m, i) == 0 ==> Listed(m, i) != [] && forall x: nat :: x < 256 ==> !Maps(m, i, x)
    ensures Counted(m, i) == 1 && Listed(m, i) == [] ==> Lone(m, i)
  {
  }

  /** An item covers what it puts in the map, what it lists, and for \D and \W everything
      beyond the map. */
  lemma ItemMeans(m: Mode, i: ClassItem, x: nat)
    requires ValidItem(m, i)
    ensures Covers(m, i, x) <==> Maps(m, i, x) || InSome(Listed(m, i), x)
    ensures x >= 256 ==> (Maps(m, i, x) <==> Negative(i))
    ensures Negative(i) && x >= 128 ==> Maps(m, i, x)
  {
    if Listed(m, i) != [] { assert Listed(m, i)[0] == if i.Char? then Single(i.c) else if i.lo == i.hi then Single(i.lo) else Span(i.lo, i.hi); }
  }

  // ---------- what has been emitted ----------

  lemma MapBit(bits: seq<bool>, x: nat)
    requires |bits| == 256 && x < 256
    ensures BitSet(MapBytes(bits), x) == bits[x]
  {
    var k, j := x / 8, x % 8;
    assert MapBytes(bits)[k] == MapByte(bits, k);
    assert x == 8 * k + j;
    ByteBit(bits, k, j);
  }

  lemma ByteBit(bits: seq<bool>, k: nat, j: nat)
    requires |bits| == 256 && k < 32 && j < 8
    ensures MapByte(bits, k) / Pow2(j) % 2 == One(bits[8 * k + j])
  {
    hide Binary;
    BinaryBit(bits, 8 * k, 8, j);
    BitIs(MapByte(bits, k), j);
  }

  function Bit(v: nat, i: nat): nat { if i == 0 then v % 2 else Bit(v / 2, i - 1) }

  lemma {:induction false} BitIs(v: nat, i: nat)
    requires i < 8
    ensures v / Pow2(i) % 2 == Bit(v, i)
    decreases i
  {
    if i > 0 {
      BitIs(v / 2, i - 1);
      HalfFirst(v, i);
    }
  }

  lemma HalfFirst(v: nat, i: nat)
    requires 0 < i < 8
    ensures v / Pow2(i) == v / 2 / Pow2(i - 1)
  {
  }

  lemma {:induction false} BinaryBit(bits: seq<bool>, j: nat, n: nat, i: nat)
    requires j + n <= |bits| && i < n
    ensures Bit(Binary(bits, j, n), i) == One(bits[j + i])
    decreases n
  {
    if i > 0 { BinaryBit(bits, j + 1, n - 1, i - 1); }
  }

  lemma CharBytes(data: seq<Byte>, p: nat, c: nat, rest: seq<Byte>)
    requires c <= Utf8.MAX_CODE && p <= |data| && data[p..] == Utf8.Encode(c) + rest
    ensures CharThere(data, p) && Utf8.Decode(data, p) == c && data[p + Utf8.Width(data, p)..] == rest
  {
    hide Utf8.Encode;
    var n := |Utf8.Encode(c)|;
    assert data[p..][..n] == data[p..p + n] == Utf8.Encode(c);
    Utf8.DecodeEncode(data, p, c);
    assert data[p..][n..] == data[p + n..];
  }

  /** The listed items read back. */
  lemma {:induction false} ListReads(c: nat, data: seq<Byte>, p: nat, es: seq<Extra>)
    requires p <= |data| && AllFit(es) && data[p..] == ListBytes(es) + [XCL_END]
    ensures (InList(c, data, p) <==> InSome(es, c)) && Complete(data, p)
    decreases |es|
  {
    hide Utf8.Encode, Utf8.Decode, Utf8.Width, InExtra, InSome, InList, Complete, ListBytes;
    ListFirst(es);
    if es == [] {
      ListEnds(c, data, p);
    } else {
      var e, rest := es[0], ListBytes(es[1..]) + [XCL_END];
      SomeFirst(e, es[1..], c);
      var n;
      if e.Single? { n := SingleReads(c, data, p, e.x, rest); } else { n := SpanReads(c, data, p, e.lo, e.hi, rest); }
      ListReads(c, data, n, es[1..]);
    }
  }

  lemma ListFirst(es: seq<Extra>)
    requires AllFit(es)
    ensures es == [] ==> ListBytes(es) + [XCL_END] == [XCL_END]
    ensures es != [] ==>
      es == [es[0]] + es[1..] && ListBytes(es) + [XCL_END] == ExtraBytes(es[0]) + (ListBytes(es[1..]) + [XCL_END])
  {
    hide Utf8.Encode;
  }

  lemma ListEnds(c: nat, data: seq<Byte>, p: nat)
    requires p <= |data| && data[p..] == [XCL_END]
    ensures !InList(c, data, p) && Complete(data, p) && !InSome([], c)
  {
    assert data[p] == data[p..][0];
  }

  lemma SingleReads(c: nat, data: seq<Byte>, p: nat, x: nat, rest: seq<Byte>) returns (n: nat)
    requires x <= Utf8.MAX_CODE && p <= |data| && data[p..] == [XCL_SINGLE] + Utf8.Encode(x) + rest
    ensures p < n <= |data| && data[n..] == rest
    ensures (InList(c, data, p) <==> c == x || InList(c, data, n)) && (Complete(data, p) <==> Complete(data, n))
  {
    hide Utf8.Encode, Utf8.Decode, Utf8.Width;
    assert data[p..] == [XCL_SINGLE] + (Utf8.Encode(x) + rest);
    Next(data, p, XCL_SINGLE, Utf8.Encode(x) + rest);
    CharBytes(data, p + 1, x, rest);
    n := p + 1 + Utf8.Width(data, p + 1);
  }

  lemma SpanReads(c: nat, data: seq<Byte>, p: nat, lo: nat, hi: nat, rest: seq<Byte>) returns (n: nat)
    requires lo <= Utf8.MAX_CODE && hi <= Utf8.MAX_CODE && p <= |data|
    requires data[p..] == [XCL_RANGE] + (Utf8.Encode(lo) + Utf8.Encode(hi)) + rest
    ensures p < n <= |data| && data[n..] == rest
    ensures (InList(c, data, p) <==> lo <= c <= hi || InList(c, data, n)) && (Complete(data, p) <==> Complete(data, n))
  {
    hide Utf8.Encode, Utf8.Decode, Utf8.Width;
    var second := Utf8.Encode(hi) + rest;
    assert data[p..] == [XCL_RANGE] + (Utf8.Encode(lo) + second);
    Next(data, p, XCL_RANGE, Utf8.Encode(lo) + second);
    CharBytes(data, p + 1, lo, second);
    var q := p + 1 + Utf8.Width(data, p + 1);
    CharBytes(data, q, hi, rest);
    n := q + Utf8.Width(data, q);
  }

  lemma Next(data: seq<Byte>, p: nat, b: Byte, rest: seq<Byte>)
    requires p <= |data| && data[p..] == [b] + rest
    ensures p < |data| && data[p] == b && data[p + 1..] == rest
  {
    assert data[p] == data[p..][0] && data[p + 1..] == data[p..][1..];
  }

  lemma SomeFirst(e: Extra, es: seq<Extra>, c: nat)
    ensures InSome([e] + es, c) <==> (if e.Single? then c == e.x else e.lo <= c <= e.hi) || InSome(es, c)
  {
    InSomeJoin([e], es, c);
    assert InSome([e], c) <==> InExtra([e][0], c);
  }

  /** The data of OP_XCLASS are well formed, and the test on them finds what was collected. */
  lemma XDataReads(st: State, negate: bool, c: nat)
    requires |st.bits| == 256 && AllFit(st.extra) && (st.count == 0 ==> forall x :: 0 <= x < 256 ==> !st.bits[x])
    ensures var data := XData(st, negate);
      var mapped := data[0] / 2 % 2 == 1;
      |data| > 0 && (mapped ==> |data| >= 33) && Complete(data, if mapped then 33 else 1) &&
      InXClass(c, data) == (((c < 256 && st.bits[c]) || InSome(st.extra, c)) != negate)
  {
    hide InSome, ListBytes, MapBytes, BitSet, InList, Complete;
    var data, tail := XData(st, negate), ListBytes(st.extra) + [XCL_END];
    var table := if st.count > 0 then MapBytes(st.bits) else [];
    assert data[1..] == table + tail;
    assert data[1 + |table|..] == tail;
    ListReads(c, data, 1 + |table|, st.extra);
    if st.count > 0 {
      assert data[1..33] == table;
      if c < 256 { MapBit(st.bits, c); }
    }
  }

  // ---------- the class denotes its set ----------

  /** A character below 128 that only ranges beyond 255 name. */
  predicate OnlyWide(m: Mode, items: seq<ClassItem>, x: nat) { x < 128 && Named(m, items, x) && !MapsSome(m, items, x) }

  /** The negative types \D and \W make the compiler drop the list of ranges; outside
      caseless matching this loses the part of them below 128. */
  ghost predicate Kept(m: Mode, items: seq<ClassItem>) {
    !NegativeSome(items) || forall x: nat :: !OnlyWide(m, items, x)
  }

  lemma NamedIs(m: Mode, items: seq<ClassItem>, x: nat)
    requires Valid(m, items)
    ensures Named(m, items, x) <==> MapsSome(m, items, x) || ListsSome(m, items, x)
    ensures x >= 256 ==> (MapsSome(m, items, x) <==> NegativeSome(items))
    ensures NegativeSome(items) && x >= 128 ==> MapsSome(m, items, x)
  {
    forall i | 0 <= i < |items|
      ensures Covers(m, items[i], x) <==> Maps(m, items[i], x) || InSome(Listed(m, items[i]), x)
      ensures x >= 256 ==> (Maps(m, items[i], x) <==> Negative(items[i]))
      ensures Negative(items[i]) && x >= 128 ==> Maps(m, items[i], x)
    {
      ItemMeans(m, items[i], x);
    }
    hide Covers, Maps, Listed, InSome, Negative, ValidItem;
  }

  ghost function Emit(m: Mode, items: seq<ClassItem>, negate: bool): Compiled
    requires Valid(m, items)
  {
    BuildCounts(m, items);
    Finish(m, Build(m, items), negate)
  }

  /** The form that is chosen can be tested. */
  lemma EmitWell(m: Mode, items: seq<ClassItem>, negate: bool)
    requires Valid(m, items)
    ensures var e := Emit(m, items, negate);
      (e.MapItem? ==> |e.bitmap| == 32) && (e.XItem? ==> |e.data| > 0 && (e.data[0] / 2 % 2 == 1 ==> |e.data| >= 33))
  {
    hide Build, MapBytes, XData;
    BuildCounts(m, items);
    XDataReads(Build(m, items), negate, 0);
  }

  /** One character, or its other case when case does not matter. */
  lemma LoneAccepts(m: Mode, items: seq<ClassItem>, negate: bool, x: nat)
    requires Valid(m, items) && OneChar(m, Build(m, items), negate) && x <= Top(m)
    ensures Accepts(m, Emit(m, items, negate), x) == (Named(m, items, x) != negate)
    ensures Kept(m, items)
  {
    BuildCounts(m, items);
    var i := items[0];
    assert items[..0] == [];
    assert Build(m, items) == Step(m, Init(), i);
    var c := if i.Char? then i.c else i.lo;
    assert Named(m, items, x) <==> Covers(m, i, x);
    assert Covers(m, i, x) <==> Folded(m, x, c, c);
    hide Named, Covers, Build, Step;
    LoneForm(m, c, negate, x);
  }

  lemma LoneForm(m: Mode, c: nat, negate: bool, x: nat)
    requires c <= Top(m) && !Wide(m, c) && c < 256 && x <= Top(m)
    ensures var last := if m.caseless then Fcc(c) else c;
      (negate ==> Accepts(m, NotItem(last), x) == !Folded(m, x, c, c)) &&
      (!negate ==> Accepts(m, CharItem(m.caseless, if m.utf8 && last > 127 then Utf8.Encode(last) else [last]), x) == Folded(m, x, c, c))
  {
    hide Utf8.Encode;
    if !negate && m.utf8 && !m.caseless { SameCode(c, x); }
  }

  lemma SameCode(c: nat, x: nat)
    requires c <= 255 && x <= Utf8.MAX_CODE
    ensures (if c > 127 then Utf8.Encode(c) else [c]) == Utf8.Encode(x) <==> c == x
  {
    if c <= 127 { Utf8.Encode1(c); }
    assert (if c > 127 then Utf8.Encode(c) else [c]) == Utf8.Encode(c);
    hide Utf8.Encode;
    if Utf8.Encode(c) == Utf8.Encode(x) {
      var e := Utf8.Encode(c);
      assert e[0..|e|] == e;
      Utf8.DecodeEncode(e, 0, c);
      Utf8.DecodeEncode(e, 0, x);
    }
  }

  /** The other forms accept what was collected, apart from a list that is dropped. */
  lemma SetAccepts(m: Mode, items: seq<ClassItem>, negate: bool, x: nat)
    requires Valid(m, items) && !OneChar(m, Build(m, items), negate) && x <= Top(m)
    ensures Accepts(m, Emit(m, items, negate), x) == ((Named(m, items, x) && !(NegativeSome(items) && OnlyWide(m, items, x))) != negate)
  {
    var st := Build(m, items);
    BuildMeans(m, items, x);
    BuildCounts(m, items);
    NamedIs(m, items, x);
    hide Build, MapsSome, ListsSome, Named, NegativeSome, OneChar, XData, MapBytes, Inverted;
    WideIs(m, items, x);
    if st.utf8 && !st.flip { ListAccepts(m, st, negate, x); } else { MapAccepts(m, st, negate, x); }
  }

  lemma WideIs(m: Mode, items: seq<ClassItem>, x: nat)
    ensures OnlyWide(m, items, x) <==> x < 128 && Named(m, items, x) && !MapsSome(m, items, x)
  {
  }

  lemma ListAccepts(m: Mode, st: State, negate: bool, x: nat)
    requires |st.bits| == 256 && AllFit(st.extra) && (st.count == 0 ==> forall y :: 0 <= y < 256 ==> !st.bits[y])
    requires !OneChar(m, st, negate) && st.utf8 && !st.flip && x <= Top(m)
    ensures var e := Finish(m, st, negate);
      e.XItem? && |e.data| > 0 && (e.data[0] / 2 % 2 == 1 ==> |e.data| >= 33) &&
      Accepts(m, e, x) == (((x < 256 && st.bits[x]) || InSome(st.extra, x)) != negate)
  {
    hide XData, InXClass, InSome, OneChar;
    XDataReads(st, negate, x);
  }

  lemma MapAccepts(m: Mode, st: State, negate: bool, x: nat)
    requires |st.bits| == 256 && AllFit(st.extra) && !OneChar(m, st, negate) && !(st.utf8 && !st.flip) && x <= Top(m)
    requires st.utf8 <==> st.extra != []
    ensures var e := Finish(m, st, negate);
      e.MapItem? && |e.bitmap| == 32 && Accepts(m, e, x) == ((if x < 256 then st.bits[x] else st.flip) != negate)
    ensures st.flip || !InSome(st.extra, x)
  {
    hide MapBytes, Inverted, BitSet, OneChar;
    if x < 256 { InvertedBit(st.bits, negate, x); }
    if !st.utf8 { NoneListed(x); }
  }

  lemma NoneListed(x: nat)
    ensures !InSome([], x)
  {
  }

  lemma InvertedBit(bits: seq<bool>, negate: bool, x: nat)
    requires |bits| == 256 && x < 256
    ensures BitSet(MapBytes(if negate then Inverted(bits) else bits), x) == (bits[x] != negate)
  {
    MapBit(if negate then Inverted(bits) else bits, x);
    hide MapBytes, BitSet;
  }

  ghost predicate Denotes(m: Mode, items: seq<ClassItem>, negate: bool, x: nat)
    requires Valid(m, items) && x <= Top(m)
  {
    EmitWell(m, items, negate);
    Accepts(m, Emit(m, items, negate), x) == (Named(m, items, x) != negate)
  }

  /** The compiled class accepts exactly the characters of its set, in either mode, with
      and without case: unless \D or \W stands beside a range beyond 255 that alone names
      a character below 128, and in that case never. */
  lemma ClassDenotes(m: Mode, items: seq<ClassItem>, negate: bool)
    requires Valid(m, items)
    ensures (forall x: nat :: x <= Top(m) ==> Denotes(m, items, negate, x)) <==> Kept(m, items)
  {
    hide Accepts, Emit, Named, OnlyWide, Build, OneChar, NegativeSome;
    forall x: nat | x <= Top(m)
      ensures Denotes(m, items, negate, x) <==> !NegativeSome(items) || !OnlyWide(m, items, x)
    {
      EmitWell(m, items, negate);
      if OneChar(m, Build(m, items), negate) {
        LoneAccepts(m, items, negate, x);
      } else {
        SetAccepts(m, items, negate, x);
        if OnlyWide(m, items, x) { WideIsNamed(m, items, x); }
      }
    }
    forall x: nat | OnlyWide(m, items, x) ensures x <= Top(m) { WideIsNamed(m, items, x); }
    hide Denotes;
  }

  lemma WideIsNamed(m: Mode, items: seq<ClassItem>, x: nat)
    requires OnlyWide(m, items, x)
    ensures Named(m, items, x) && x < 128 <= Top(m)
  {
  }

  /** The class [0-\x{100}\D] in UTF-8 mode does not accept 5. */
  lemma RangeIsLost()
    ensures var m := Mode(true, false);
      var items := [Range(48, 256), Type(false, true)];
      Valid(m, items) && Named(m, items, 53) && !Kept(m, items) && !Denotes(m, items, false, 53)
  {
    var m := Mode(true, false);
    var items := [Range(48, 256), Type(false, true)];
    assert Covers(m, items[0], 53) && Negative(items[1]);
    assert OnlyWide(m, items, 53);
    hide Accepts, Emit, Named, OnlyWide, Build;
    EmitWell(m, items, false);
    ManyCounted();
    SetAccepts(m, items, false, 53);
  }

  lemma ManyCounted()
    ensures var m := Mode(true, false);
      var items := [Range(48, 256), Type(false, true)];
      Valid(m, items) && Build(m, items).count == 2
  {
    var m := Mode(true, false);
    var items := [Range(48, 256), Type(false, true)];
    assert items[..1] == [items[0]] && items[..1][..0] == [];
    assert Build(m, items[..1]) == Step(m, Init(), items[0]);
  }

  /** Nothing is lost in byte mode, in caseless matching, or without a range beyond 255. */
  lemma MostAreKept(m: Mode, items: seq<ClassItem>)
    requires Valid(m, items)
    requires !m.utf8 || m.caseless || forall i :: 0 <= i < |items| && items[i].Range? ==> items[i].hi <= 255
    ensures Kept(m, items)
  {
    forall x: nat ensures !OnlyWide(m, items, x) {
      if x < 128 && Named(m, items, x) {
        var i :| 0 <= i < |items| && Covers(m, items[i], x);
        assert Maps(m, items[i], x);
      }
    }
  }

  /** The collecting loop of compile_branch, one class. */
  class ClassBuilder {
    const m: Mode
    const classbits: array<bool>
    var extra: seq<Extra>
    var classUtf8: bool
    var shouldFlip: bool
    var charCount: nat
    var lastChar: int

    ghost predicate Ready()
      reads this
    {
      classbits.Length == 256
    }

    ghost function View(): State
      requires Ready()
      reads this, classbits
    {
      State(classbits[..], extra, classUtf8, shouldFlip, charCount, lastChar)
    }

    constructor (m: Mode)
      ensures Ready() && this.m == m && View() == Init() && fresh(classbits)
    {
      this.m := m;
      extra, classUtf8, shouldFlip, charCount, lastChar := [], false, false, 0, -1;
      classbits := new bool[256](_ => false);
      new;
      assert classbits[..] == Init().bits;
    }

    /** LONE_SINGLE_CHARACTER. */
    method Lonely(c: nat)
      requires Ready() && c <= Top(m)
      modifies this, classbits
      ensures Ready() && View() == Step(m, old(View()), Char(c))
    {
      if Wide(m, c) {
        classUtf8 := true;
        extra := extra + [Single(c)];
      } else {
        classbits[c] := true;
        var last := c;
        if m.caseless {
          last := Fcc(c);
          classbits[last] := true;
        }
        charCount := charCount + 1;
        lastChar := last;
      }
      assert classbits[..] == Step(m, old(View()), Char(c)).bits;
    }

    /** One item; an error number, or 0. */
    method Add(i: ClassItem) returns (err: nat)
      requires Ready() && (i.Char? ==> i.c <= Top(m)) && (i.Range? ==> i.lo <= Top(m) && i.hi <= Top(m))
      modifies this, classbits
      ensures Ready() && err == (if ValidItem(m, i) then 0 else ERR8)
      ensures View() == if err == 0 then Step(m, old(View()), i) else old(View())
    {
      match i {
        case Char(c) =>
          Lonely(c);
        case Range(lo, hi) =>
          if hi < lo { return ERR8; }
          if hi == lo {
            Lonely(lo);
            SameStep(m, old(View()), lo);
          } else {
            Spread(lo, hi);
          }
        case Type(word, neg) =>
          charCount := charCount + 2;
          if neg { shouldFlip := true; }
          var x := 0;
          while x < 256
            modifies classbits
            invariant 0 <= x <= 256
            invariant forall y :: 0 <= y < 256 ==> classbits[y] == (old(classbits[y]) || (y < x && Maps(m, i, y)))
          {
            if (if word then IsWord(x) else IsDigit(x)) != neg { classbits[x] := true; }
            x := x + 1;
          }
          assert classbits[..] == Step(m, old(View()), i).bits;
      }
      err := 0;
    }

    /** A range of two or more characters. */
    method Spread(lo: nat, hi: nat)
      requires Ready() && lo < hi <= Top(m)
      modifies this, classbits
      ensures Ready() && View() == Step(m, old(View()), Range(lo, hi))
    {
      var d, c := hi, lo;
      if Wide(m, hi) {
        classUtf8 := true;
        extra := extra + [Span(lo, hi)];
        if !m.caseless || lo > 127 {
          assert classbits[..] == Step(m, old(View()), Range(lo, hi)).bits;
          return;
        }
        d := 127;
      }
      charCount := charCount + (d - lo + 1);
      lastChar := d;
      while c <= d
        modifies classbits
        invariant lo <= c <= d + 1 && d < 256
        invariant forall y :: 0 <= y < 256 ==> classbits[y] == (old(classbits[y]) || (lo < c && Folded(m, y, lo, c - 1)))
      {
        classbits[c] := true;
        if m.caseless { classbits[Fcc(c)] := true; }
        c := c + 1;
      }
      assert classbits[..] == Step(m, old(View()), Range(lo, hi)).bits;
    }

    /** The item that is emitted at the closing bracket. */
    method Close(negate: bool) returns (e: Compiled)
      requires Ready() && AllFit(extra)
      ensures e == Finish(m, View(), negate)
    {
      hide MapBytes, Inverted, ListBytes;
      if charCount == 1 && !classUtf8 && 0 <= lastChar < 256 && (!m.utf8 || !negate || lastChar < 128) {
        if negate { return NotItem(lastChar); }
        return CharItem(m.caseless, if m.utf8 && lastChar > 127 then Utf8.Encode(lastChar) else [lastChar]);
      }
      if classUtf8 && !shouldFlip { return XItem(XData(State(classbits[..], extra, classUtf8, shouldFlip, charCount, lastChar), negate)); }
      return MapItem(negate != shouldFlip, MapBytes(if negate then Inverted(classbits[..]) else classbits[..]));
    }
  }

  lemma SameStep(m: Mode, st: State, c: nat)
    requires |st.bits| == 256 && c <= Top(m)
    ensures Step(m, st, Char(c)) == Step(m, st, Range(c, c))
  {
    assert Step(m, st, Char(c)).bits == Step(m, st, Range(c, c)).bits;
  }

  /** One class from its items: an error of the pattern, or the item for them. */
  method CompileClass(m: Mode, items: seq<ClassItem>, negate: bool) returns (err: nat, e: Compiled)
    requires forall i :: 0 <= i < |items| ==>
      (items[i].Char? ==> items[i].c <= Top(m)) && (items[i].Range? ==> items[i].lo <= Top(m) && items[i].hi <= Top(m))
    ensures err == (if Valid(m, items) then 0 else ERR8) && (err == 0 ==> e == Emit(m, items, negate))
  {
    hide Step, Finish;
    var builder := new ClassBuilder(m);
    var i := 0;
    e := NotItem(0);
    while i < |items|
      invariant 0 <= i <= |items| && builder.Ready() && builder.m == m && fresh(builder) && fresh(builder.classbits)
      invariant Valid(m, items[..i]) && builder.View() == Build(m, items[..i])
    {
      err := builder.Add(items[i]);
      if err != 0 { return; }
      assert items[..i + 1][..i] == items[..i];
      i := i + 1;
    }
    assert items[..i] == items;
    BuildCounts(m, items);
    e := builder.Close(negate);
    err := 0;
  }
}
