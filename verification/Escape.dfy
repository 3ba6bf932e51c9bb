/** check_escape: what a backslash in a pattern means. Byte mode; counts do not
    overflow. */
module Escape {
  import opened Bytes

  const ESC_g: nat := 27
  const ESC_k: nat := 28
  const ESC_REF: nat := 29

  /** A data character, a special escape, or an error number; last is the index of the
      final byte of the sequence. */
  datatype Escaped = Data(c: nat, last: nat) | Special(code: nat, last: nat) | Bad(err: nat)

  /** A pattern ends in a zero byte. */
  function Ch(pat: seq<Byte>, p: nat): Byte { if p < |pat| then pat[p] else 0 }

  predicate IsOctal(b: Byte) { 48 <= b <= 55 }

  predicate IsHex(b: Byte) { IsDigit(b) || 65 <= b <= 70 || 97 <= b <= 102 }

  function HexValue(b: Byte): (n: nat)
    requires IsHex(b)
    ensures n < 16
  {
    if IsDigit(b) then b - 48 else if b < 97 then b - 55 else b - 87
  }

  /** The table for '0' to 'z': a data character, minus a special escape, or 0. */
  function Table(b: Byte): int {
    if b in {58, 59, 60, 61, 62, 63, 64, 91, 92, 93, 94, 95, 96} then b
    else if b == 97 then 7 else if b == 101 then 27 else if b == 102 then 12
    else if b == 110 then 10 else if b == 114 then 13 else if b == 116 then 9
    else if b == 65 then -1 else if b == 71 then -2 else if b == 75 then -3 else if b == 66 then -4
    else if b == 98 then -5 else if b == 68 then -6 else if b == 100 then -7 else if b == 83 then -8
    else if b == 115 then -9 else if b == 87 then -10 else if b == 119 then -11 else if b == 67 then -14
    else if b == 80 then -15 else if b == 112 then -16 else if b == 82 then -17 else if b == 72 then -18
    else if b == 104 then -19 else if b == 86 then -20 else if b == 118 then -21 else if b == 88 then -22
    else if b == 90 then -23 else if b == 122 then -24 else if b == 69 then -25 else if b == 81 then -26
    else if b == 107 then -28 else 0
  }

  // ---------- numbers ----------

  datatype Number = Number(n: nat, last: nat)

  /** The decimal digits behind p, below those of n. */
  function Decimal(pat: seq<Byte>, p: nat, n: nat): (d: Number)
    ensures p <= d.last && (d.last < |pat| || d.last == p)
    decreases |pat| - p
  {
    if p + 1 < |pat| && IsDigit(pat[p + 1]) then Decimal(pat, p + 1, n * 10 + (pat[p + 1] - 48)) else Number(n, p)
  }

  /** Up to k octal digits behind p. */
  function Octal(pat: seq<Byte>, p: nat, k: nat, n: nat): (d: Number)
    ensures p <= d.last <= p + k
    decreases k
  {
    if k > 0 && IsOctal(Ch(pat, p + 1)) then Octal(pat, p + 1, k - 1, n * 8 + (Ch(pat, p + 1) - 48)) else Number(n, p)
  }

  function Hex(pat: seq<Byte>, p: nat, k: nat, n: nat): Number
    decreases k
  {
    if k > 0 && IsHex(Ch(pat, p + 1)) then Hex(pat, p + 1, k - 1, n * 16 + HexValue(Ch(pat, p + 1))) else Number(n, p)
  }

  /** The digits inside \x{...}: their value, how many count, and the place behind them. */
  datatype Digits = Digits(n: nat, count: nat, end: nat)

  function HexDigits(pat: seq<Byte>, p: nat, n: nat, count: nat): (d: Digits)
    decreases |pat| - p
  {
    if p < |pat| && IsHex(pat[p]) then
      if n == 0 && pat[p] == 48 then HexDigits(pat, p + 1, 0, count)
      else HexDigits(pat, p + 1, n * 16 + HexValue(pat[p]), count + 1)
    else Digits(n, count, p)
  }

  /** The first byte from p on that is neither a digit nor a minus sign. */
  function PastNumber(pat: seq<Byte>, p: nat): (q: nat)
    ensures p <= q
    decreases |pat| - p
  {
    if p < |pat| && (IsDigit(pat[p]) || pat[p] == 45) then PastNumber(pat, p + 1) else p
  }

  // ---------- the escapes with more text ----------

  /** \g at p: a call by name or number, a reference by name, or one by number. */
  function EscapeG(pat: seq<Byte>, p: nat, bracount: nat): Escaped {
    if Ch(pat, p + 1) == 60 || Ch(pat, p + 1) == 39 then Special(ESC_g, p)
    else
      var braced := Ch(pat, p + 1) == 123;
      var past := PastNumber(pat, p + 2);
      if braced && Ch(pat, past) != 0 && Ch(pat, past) != 125 then Special(ESC_k, p)
      else
        var q := if braced then p + 1 else p;
        var negated := Ch(pat, q + 1) == 45;
        var d := Decimal(pat, if negated then q + 1 else q, 0);
        var last := if braced then d.last + 1 else d.last;
        if braced && Ch(pat, last) != 125 then Bad(57)
        else if d.n == 0 then Bad(58)
        else if negated && d.n > bracount then Bad(15)
        else Special(ESC_REF + if negated then bracount - (d.n - 1) else d.n, last)
  }

  /** A digit at p: a reference, or an octal number. */
  function EscapeDigit(pat: seq<Byte>, p: nat, bracount: nat, isclass: bool): Escaped
    requires p > 0 && IsDigit(Ch(pat, p))
  {
    var d := Decimal(pat, p, Ch(pat, p) - 48);
    if Ch(pat, p) != 48 && !isclass && (d.n < 10 || d.n <= bracount) then Special(ESC_REF + d.n, d.last)
    else if Ch(pat, p) >= 56 then Data(0, p - 1)
    else
      var o := Octal(pat, p, 2, Ch(pat, p) - 48);
      if o.n > 255 then Bad(51) else Data(o.n, o.last)
  }

  function EscapeX(pat: seq<Byte>, p: nat): Escaped {
    var d := HexDigits(pat, p + 2, 0, 0);
    if Ch(pat, p + 1) == 123 && Ch(pat, d.end) == 125 then
      if d.n >= 0x8000_0000 || d.count > 2 then Bad(34) else Data(d.n, d.end)
    else
      var h := Hex(pat, p, 2, 0);
      Data(h.n, h.last)
  }

  function EscapeC(pat: seq<Byte>, p: nat): Escaped {
    var c := Ch(pat, p + 1);
    var u := if IsLower(c) then c - 32 else c;
    if c == 0 then Bad(2) else Data(if u / 64 % 2 == 1 then u - 64 else u + 64, p + 1)
  }

  /** The escape whose backslash is at p. */
  function CheckEscape(pat: seq<Byte>, p: nat, bracount: nat, extra: bool, isclass: bool): Escaped {
    var q, c := p + 1, Ch(pat, p + 1);
    if c == 0 then Bad(1)
    else if c < 48 || c > 122 then Data(c, q)
    else if Table(c) > 0 then Data(Table(c), q)
    else if Table(c) < 0 then Special(-Table(c), q)
    else if c in {108, 76, 78, 117, 85} then Bad(37)
    else if c == 103 then EscapeG(pat, q, bracount)
    else if IsDigit(c) then EscapeDigit(pat, q, bracount, isclass)
    else if c == 120 then EscapeX(pat, q)
    else if c == 99 then EscapeC(pat, q)
    else if extra then Bad(3)
    else Data(c, q)
  }

  // ---------- what they give ----------

  lemma {:induction false} DecimalInside(pat: seq<Byte>, p: nat, n: nat)
    requires p < |pat|
    ensures Decimal(pat, p, n).last < |pat|
    decreases |pat| - p
  {
    if p + 1 < |pat| && IsDigit(pat[p + 1]) { DecimalInside(pat, p + 1, n * 10 + (pat[p + 1] - 48)); }
  }

  lemma OctalBound(pat: seq<Byte>, p: nat, n: nat)
    requires p < |pat| && n < 8
    ensures Octal(pat, p, 2, n).last < |pat|
  {
    var a := Octal(pat, p + 1, 1, n * 8 + (Ch(pat, p + 1) as int - 48) % 8);
    if IsOctal(Ch(pat, p + 1)) { assert Octal(pat, p + 1, 1, n * 8 + (Ch(pat, p + 1) - 48)).last < |pat|; }
  }

  lemma HexBound(pat: seq<Byte>, p: nat)
    requires p < |pat|
    ensures Hex(pat, p, 2, 0).last < |pat| && p <= Hex(pat, p, 2, 0).last && Hex(pat, p, 2, 0).n < 256
  {
    if IsHex(Ch(pat, p + 1)) {
      var n := HexValue(Ch(pat, p + 1));
      assert Hex(pat, p, 2, 0) == Hex(pat, p + 1, 1, n);
      if IsHex(Ch(pat, p + 2)) { assert Hex(pat, p + 1, 1, n) == Hex(pat, p + 2, 0, n * 16 + HexValue(Ch(pat, p + 2))); }
    }
  }

  function Pow16(k: nat): nat { if k == 0 then 1 else 16 * Pow16(k - 1) }

  /** The value is bounded by the digits that count. */
  lemma {:induction false} BracedBound(pat: seq<Byte>, p: nat, n: nat, count: nat)
    requires n < Pow16(count)
    ensures var d := HexDigits(pat, p, n, count); d.n < Pow16(d.count) && p <= d.end
    decreases |pat| - p
  {
    if p < |pat| && IsHex(pat[p]) {
      if n == 0 && pat[p] == 48 { BracedBound(pat, p + 1, 0, count); } else { BracedBound(pat, p + 1, n * 16 + HexValue(pat[p]), count + 1); }
    }
  }

  lemma XFits(pat: seq<Byte>, p: nat)
    requires p < |pat|
    ensures var e := EscapeX(pat, p); !e.Special? && (e.Data? ==> e.c < 256 && p <= e.last < |pat|)
  {
    hide HexDigits, Hex;
    BracedBound(pat, p + 2, 0, 0);
    HexBound(pat, p);
    assert Pow16(0) == 1 && Pow16(1) == 16 && Pow16(2) == 256;
  }

  lemma CFits(pat: seq<Byte>, p: nat)
    requires p < |pat|
    ensures var e := EscapeC(pat, p); !e.Special? && (e.Data? ==> e.c < 256 && p < e.last < |pat|)
  {
  }

  lemma GFits(pat: seq<Byte>, p: nat, bracount: nat)
    requires p < |pat|
    ensures var e := EscapeG(pat, p, bracount); !e.Data? && (e.Special? ==> p <= e.last < |pat|)
  {
    hide Decimal, PastNumber;
    var q := if Ch(pat, p + 1) == 123 then p + 1 else p;
    var from := if Ch(pat, q + 1) == 45 then q + 1 else q;
    DecimalInside(pat, from, 0);
  }

  lemma DigitFits(pat: seq<Byte>, p: nat, bracount: nat, isclass: bool)
    requires 0 < p < |pat| && IsDigit(Ch(pat, p))
    ensures var e := EscapeDigit(pat, p, bracount, isclass);
      (e.Data? ==> e.c < 256 && p - 1 <= e.last < |pat|) && (e.Special? ==> p <= e.last < |pat|)
  {
    hide Decimal, Octal;
    DecimalInside(pat, p, Ch(pat, p) - 48);
    if IsOctal(Ch(pat, p)) { OctalBound(pat, p, Ch(pat, p) - 48); }
  }

  /** A data character is a byte, and every sequence ends inside the pattern. (The
      backslash itself is the end where a digit 8 or 9 is left to be read again.) */
  lemma EscapeFits(pat: seq<Byte>, p: nat, bracount: nat, extra: bool, isclass: bool)
    requires p < |pat|
    ensures var e := CheckEscape(pat, p, bracount, extra, isclass);
      (e.Data? ==> e.c < 256 && p <= e.last < |pat| && (e.last == p ==> e.c == 0 && Ch(pat, p + 1) in {56, 57})) &&
      (e.Special? ==> p < e.last < |pat|)
  {
    hide EscapeG, EscapeX, EscapeDigit, EscapeC;
    var q := p + 1;
    if q < |pat| && Ch(pat, q) == 99 { CFits(pat, q); }
    if q < |pat| {
      if Ch(pat, q) == 103 { GFits(pat, q, bracount); }
      if Ch(pat, q) == 120 { XFits(pat, q); }
      if IsDigit(Ch(pat, q)) {
        DigitFits(pat, q, bracount, isclass);
        DigitLast(pat, q, bracount, isclass);
      }
    }
  }

  lemma DigitLast(pat: seq<Byte>, p: nat, bracount: nat, isclass: bool)
    requires 0 < p < |pat| && IsDigit(Ch(pat, p))
    ensures var e := EscapeDigit(pat, p, bracount, isclass); e.Data? && e.last < p ==> e.c == 0 && Ch(pat, p) in {56, 57}
  {
    hide Decimal, Octal;
  }

  // ---------- round trips ----------

  function HexDigit(n: nat): Byte
    requires n < 16
  {
    if n < 10 then 48 + n else 87 + n
  }

  /** \xhh is the byte hh, whatever follows. */
  lemma HexReads(b: Byte, rest: seq<Byte>, bracount: nat, extra: bool, isclass: bool)
    ensures CheckEscape([92, 120, HexDigit(b / 16), HexDigit(b % 16)] + rest, 0, bracount, extra, isclass) == Data(b, 3)
  {
    var pat := [92, 120, HexDigit(b / 16), HexDigit(b % 16)] + rest;
    assert pat[1] == 120 && pat[2] == HexDigit(b / 16) && pat[3] == HexDigit(b % 16);
    assert Hex(pat, 1, 2, 0) == Hex(pat, 2, 1, b / 16) == Hex(pat, 3, 0, b);
    hide HexDigits;
  }

  lemma {:induction false} DecimalUp(pat: seq<Byte>, p: nat, n: nat)
    ensures Decimal(pat, p, n).n >= n
    decreases |pat| - p
  {
    if p + 1 < |pat| && IsDigit(pat[p + 1]) { DecimalUp(pat, p + 1, n * 10 + (pat[p + 1] - 48)); }
  }

  lemma OctalThree(pat: seq<Byte>, x: nat, y: nat, z: nat)
    requires x < 8 && y < 8 && z < 8 && Ch(pat, 2) == 48 + y && Ch(pat, 3) == 48 + z
    ensures Octal(pat, 1, 2, x) == Number((x * 8 + y) * 8 + z, 3)
  {
    assert Octal(pat, 1, 2, x) == Octal(pat, 2, 1, x * 8 + y);
    assert Octal(pat, 2, 1, x * 8 + y) == Octal(pat, 3, 0, (x * 8 + y) * 8 + z);
  }

  lemma DecimalThree(pat: seq<Byte>, x: nat, y: nat, z: nat)
    requires |pat| > 3 && 0 < x < 8 && y < 8 && z < 8 && Ch(pat, 2) == 48 + y && Ch(pat, 3) == 48 + z
    ensures Decimal(pat, 1, x).n >= 100
  {
    assert Decimal(pat, 1, x) == Decimal(pat, 2, x * 10 + y);
    assert Decimal(pat, 2, x * 10 + y) == Decimal(pat, 3, (x * 10 + y) * 10 + z);
    DecimalUp(pat, 3, (x * 10 + y) * 10 + z);
  }

  /** \ddd is the byte with the octal digits ddd, whatever follows: in a class, or when it
      begins with 0, or when there are not so many groups. */
  lemma OctalReads(b: Byte, rest: seq<Byte>, bracount: nat, extra: bool, isclass: bool)
    requires isclass || b < 64 || bracount < 100
    ensures CheckEscape([92, 48 + b / 64, 48 + b / 8 % 8, 48 + b % 8] + rest, 0, bracount, extra, isclass) == Data(b, 3)
  {
    hide Decimal, Octal;
    var x, y, z := b / 64, b / 8 % 8, b % 8;
    var pat := [92, 48 + x, 48 + y, 48 + z] + rest;
    assert pat[1] == 48 + x && pat[2] == 48 + y && pat[3] == 48 + z;
    OctalThree(pat, x, y, z);
    if x > 0 { DecimalThree(pat, x, y, z); }
    assert (x * 8 + y) * 8 + z == b;
    assert CheckEscape(pat, 0, bracount, extra, isclass) == EscapeDigit(pat, 1, bracount, isclass);
  }

  /** A number as it is written. */
  function Written(n: nat): (s: seq<Byte>)
    ensures s != [] && forall i :: 0 <= i < |s| ==> IsDigit(s[i])
  {
    if n < 10 then [48 + n] else Written(n / 10) + [48 + n % 10]
  }

  /** The digits s, read behind the number m. */
  function Value(s: seq<Byte>, m: nat): nat
    requires forall i :: 0 <= i < |s| ==> IsDigit(s[i])
    decreases |s|
  {
    if s == [] then m else
      assert IsDigit(s[|s| - 1]);
      Value(s[..|s| - 1], m) * 10 + (s[|s| - 1] - 48)
  }

  lemma {:induction false} WrittenValue(n: nat)
    ensures Value(Written(n), 0) == n
    decreases n
  {
    if n >= 10 {
      WrittenValue(n / 10);
      assert Written(n)[..|Written(n)| - 1] == Written(n / 10);
    } else {
      assert Written(n)[..0] == [];
    }
  }

  lemma {:induction false} DecimalReads(pat: seq<Byte>, p: nat, s: seq<Byte>, m: nat)
    requires p + 1 + |s| <= |pat| && pat[p + 1..p + 1 + |s|] == s && forall i :: 0 <= i < |s| ==> IsDigit(s[i])
    ensures Decimal(pat, p, m) == Decimal(pat, p + |s|, Value(s, m))
    decreases |s|
  {
    if s != [] {
      var k, t := |s| - 1, s[..|s| - 1];
      assert pat[p + 1..p + 1 + k] == pat[p + 1..p + 1 + |s|][..k] == t;
      DecimalReads(pat, p, t, m);
      assert pat[p + |s|] == pat[p + 1..p + 1 + |s|][k] == s[k];
    }
  }

  lemma {:induction false} PastDigits(pat: seq<Byte>, p: nat, s: seq<Byte>)
    requires p + |s| <= |pat| && pat[p..p + |s|] == s && forall i :: 0 <= i < |s| ==> IsDigit(s[i]) || s[i] == 45
    ensures PastNumber(pat, p) == PastNumber(pat, p + |s|)
    decreases |s|
  {
    if s != [] {
      assert pat[p] == pat[p..p + |s|][0] == s[0];
      assert pat[p + 1..p + 1 + |s[1..]|] == pat[p..p + |s|][1..] == s[1..];
      PastDigits(pat, p + 1, s[1..]);
    }
  }

  /** \g{n} is a reference to group n, and \g{-n} to the n-th group before; to none if
      there are not so many. */
  lemma ReferenceReads(n: nat, back: bool, rest: seq<Byte>, bracount: nat, extra: bool, isclass: bool)
    requires n > 0
    ensures var minus: seq<Byte> := if back then [45] else [];
      var pat := [92, 103, 123] + minus + Written(n) + [125] + rest;
      CheckEscape(pat, 0, bracount, extra, isclass) ==
        if back && n > bracount then Bad(15)
        else Special(ESC_REF + (if back then bracount - (n - 1) else n), 3 + |minus| + |Written(n)|)
  {
    var minus: seq<Byte>, w := if back then [45] else [], Written(n);
    var pat := [92, 103, 123] + minus + w + [125] + rest;
    WrittenValue(n);
    hide Written;
    ReferenceText(pat, minus, w, rest);
    hide EscapeG, CheckEscape, Decimal, Value;
    ReferenceParts(pat, minus, w, n, bracount);
    DispatchG(pat, bracount, extra, isclass);
  }

  lemma DispatchG(pat: seq<Byte>, bracount: nat, extra: bool, isclass: bool)
    requires |pat| > 1 && pat[1] == 103
    ensures CheckEscape(pat, 0, bracount, extra, isclass) == EscapeG(pat, 1, bracount)
  {
    hide EscapeG;
  }

  lemma ReferenceText(pat: seq<Byte>, minus: seq<Byte>, w: seq<Byte>, rest: seq<Byte>)
    requires pat == [92, 103, 123] + minus + w + [125] + rest && w != [] && (minus == [45] || minus == [])
    ensures var from, end := 2 + |minus|, 3 + |minus| + |w|;
      && end < |pat| && pat[1] == 103 && pat[2] == 123 && pat[end] == 125 && pat[3..end] == minus + w
      && pat[from + 1..end] == w && pat[3] == (if minus == [] then w[0] else 45)
  {
  }

  lemma ReferenceParts(pat: seq<Byte>, minus: seq<Byte>, w: seq<Byte>, n: nat, bracount: nat)
    requires n > 0 && w != [] && (minus == [45] || minus == []) && (forall i :: 0 <= i < |w| ==> IsDigit(w[i])) && Value(w, 0) == n
    requires var from, end := 2 + |minus|, 3 + |minus| + |w|;
      && end < |pat| && pat[1] == 103 && pat[2] == 123 && pat[end] == 125 && pat[3..end] == minus + w
      && pat[from + 1..end] == w && pat[3] == (if minus == [] then w[0] else 45)
    ensures EscapeG(pat, 1, bracount) ==
      if minus != [] && n > bracount then Bad(15)
      else Special(ESC_REF + (if minus != [] then bracount - (n - 1) else n), 3 + |minus| + |w|)
  {
    hide Decimal, PastNumber, Value, EscapeG;
    ReferenceNumbers(pat, minus, w, n);
    BracedNumber(pat, n, minus != [], 3 + |minus| + |w|, bracount);
  }

  lemma BracedNumber(pat: seq<Byte>, n: nat, negated: bool, last: nat, bracount: nat)
    requires n > 0 && 3 < last && Ch(pat, 2) == 123 && (Ch(pat, 3) == 45 <==> negated) && Ch(pat, last) == 125
    requires PastNumber(pat, 3) == last && Decimal(pat, if negated then 3 else 2, 0) == Number(n, last - 1)
    ensures EscapeG(pat, 1, bracount) ==
      if negated && n > bracount then Bad(15) else Special(ESC_REF + (if negated then bracount - (n - 1) else n), last)
  {
    hide Decimal, PastNumber;
  }

  lemma ReferenceNumbers(pat: seq<Byte>, minus: seq<Byte>, w: seq<Byte>, n: nat)
    requires w != [] && (minus == [45] || minus == []) && (forall i :: 0 <= i < |w| ==> IsDigit(w[i])) && Value(w, 0) == n
    requires var from, end := 2 + |minus|, 3 + |minus| + |w|;
      end < |pat| && pat[end] == 125 && pat[3..end] == minus + w && pat[from + 1..end] == w
    ensures var from, end := 2 + |minus|, 3 + |minus| + |w|;
      PastNumber(pat, 3) == end && Decimal(pat, from, 0) == Number(n, end - 1)
  {
    hide Value;
    var from, end := 2 + |minus|, 3 + |minus| + |w|;
    PastDigits(pat, 3, minus + w);
    DecimalReads(pat, from, w, 0);
    DecimalStops(pat, end - 1, n);
    assert PastNumber(pat, end) == end;
  }

  // ---------- references and numbers ----------

  lemma {:induction false} WrittenFirst(n: nat)
    requires n > 0
    ensures 48 < Written(n)[0] <= 57
    decreases n
  {
    if n >= 10 { WrittenFirst(n / 10); }
  }

  /** A decimal number is a reference, outside a class, if it is one digit or there are so
      many groups. */
  lemma BackReads(n: nat, rest: seq<Byte>, bracount: nat, extra: bool)
    requires n > 0 && (n < 10 || n <= bracount) && (rest == [] || !IsDigit(rest[0]))
    ensures CheckEscape([92] + Written(n) + rest, 0, bracount, extra, false) == Special(ESC_REF + n, |Written(n)|)
  {
    WrittenFirst(n);
    WrittenValue(n);
    var w := Written(n);
    var pat := [92] + w + rest;
    hide Written, EscapeDigit;
    assert pat[0 + 1..0 + 1 + |w|] == w && pat[1] == w[0];
    DecimalReads(pat, 0, w, 0);
    hide Value;
    DecimalStops(pat, |w|, n);
    assert Decimal(pat, 0, 0) == Decimal(pat, 1, 0 * 10 + (pat[1] - 48));
    DigitRefers(pat, n, |w|, bracount);
    assert CheckEscape(pat, 0, bracount, extra, false) == EscapeDigit(pat, 1, bracount, false);
  }

  lemma DecimalStops(pat: seq<Byte>, p: nat, n: nat)
    requires p + 1 >= |pat| || !IsDigit(pat[p + 1])
    ensures Decimal(pat, p, n) == Number(n, p)
  {
  }

  lemma DigitRefers(pat: seq<Byte>, n: nat, last: nat, bracount: nat)
    requires |pat| > 1 && 48 < pat[1] <= 57 && Decimal(pat, 1, pat[1] - 48) == Number(n, last) && (n < 10 || n <= bracount)
    ensures EscapeDigit(pat, 1, bracount, false) == Special(ESC_REF + n, last)
  {
    hide Decimal, Octal;
  }

  lemma {:induction false} HexRun(pat: seq<Byte>, p: nat, w: seq<Byte>, n: nat, count: nat)
    requires p + |w| < |pat| && pat[p..p + |w|] == w && (forall i :: 0 <= i < |w| ==> IsHex(w[i])) && !IsHex(pat[p + |w|])
    requires n > 0 || (w != [] && w[0] != 48)
    ensures var d := HexDigits(pat, p, n, count); d.count == count + |w| && d.end == p + |w|
    decreases |w|
  {
    if w != [] {
      assert pat[p] == pat[p..p + |w|][0] == w[0];
      assert pat[p + 1..p + 1 + |w[1..]|] == pat[p..p + |w|][1..] == w[1..];
      assert IsHex(w[0]);
      if |w| > 1 || n * 16 + HexValue(w[0]) > 0 { HexRun(pat, p + 1, w[1..], n * 16 + HexValue(w[0]), count + 1); }
    }
  }

  /** \x{hh} is the byte hh; */
  lemma BracedReads(b: Byte, rest: seq<Byte>, bracount: nat, extra: bool, isclass: bool)
    ensures CheckEscape([92, 120, 123, HexDigit(b / 16), HexDigit(b % 16), 125] + rest, 0, bracount, extra, isclass) == Data(b, 5)
  {
    var pat := [92, 120, 123, HexDigit(b / 16), HexDigit(b % 16), 125] + rest;
    assert pat[1] == 120 && pat[2] == 123 && pat[3] == HexDigit(b / 16) && pat[4] == HexDigit(b % 16) && pat[5] == 125;
    var hi, lo := b / 16, b % 16;
    var n, m := if hi == 0 then 0 else 1, if hi == 0 && lo == 0 then 0 else if hi == 0 then 1 else 2;
    assert IsHex(pat[3]) && HexValue(pat[3]) == hi && IsHex(pat[4]) && HexValue(pat[4]) == lo && !IsHex(pat[5]);
    assert HexDigits(pat, 5, b, m) == Digits(b, m, 5);
    assert HexDigits(pat, 4, hi, n) == HexDigits(pat, 5, b, m);
    assert HexDigits(pat, 3, 0, 0) == HexDigits(pat, 4, hi, n);
    hide HexDigits;
  }

  /** with more digits that count it is error 34. */
  lemma BracedTooLong(w: seq<Byte>, rest: seq<Byte>, bracount: nat, extra: bool, isclass: bool)
    requires |w| > 2 && w[0] != 48 && forall i :: 0 <= i < |w| ==> IsHex(w[i])
    ensures CheckEscape([92, 120, 123] + w + [125] + rest, 0, bracount, extra, isclass) == Bad(34)
  {
    var pat := [92, 120, 123] + w + [125] + rest;
    assert pat[3..3 + |w|] == w && pat[3 + |w|] == 125 && pat[1] == 120 && pat[2] == 123;
    HexRun(pat, 3, w, 0, 0);
    hide HexDigits;
  }

  /** \g with < or ' calls a group, with braces around a name refers to one by name; without
      a number or a closing brace it is an error. */
  lemma GroupReads(x: Byte, rest: seq<Byte>, bracount: nat, extra: bool, isclass: bool)
    ensures x in {60, 39} ==> CheckEscape([92, 103, x] + rest, 0, bracount, extra, isclass) == Special(ESC_g, 1)
    ensures x !in {0, 45, 125} && !IsDigit(x) ==> CheckEscape([92, 103, 123, x] + rest, 0, bracount, extra, isclass) == Special(ESC_k, 1)
    ensures x !in {60, 39, 123, 45} && !IsDigit(x) ==> CheckEscape([92, 103, x] + rest, 0, bracount, extra, isclass) == Bad(58)
    ensures IsDigit(x) ==> CheckEscape([92, 103, 123, x], 0, bracount, extra, isclass) == Bad(57)
  {
    var a, b, e := [92, 103, x] + rest, [92, 103, 123, x] + rest, [92, 103, 123, x];
    assert a[1] == 103 && a[2] == x && b[1] == 103 && b[2] == 123 && b[3] == x && e[1] == 103 && e[2] == 123 && e[3] == x;
    DispatchG(a, bracount, extra, isclass);
    DispatchG(b, bracount, extra, isclass);
    DispatchG(e, bracount, extra, isclass);
    hide CheckEscape;
  }

  // ---------- letter by letter ----------

  /** The escapes that stand for more than a character, in the order of their codes from 1
      on; g is one only with more text, and two codes belong to no escape. */
  const SPECIALS := "AGKBbDdSsWw..CPpRHhVvXZzEQ.k"

  const CONTROLS := "aefnrt"

  const CONTROL_VALUES: seq<nat> := [7, 27, 12, 10, 13, 9]

  lemma TableIs(c: Byte)
    requires !IsDigit(c) && 48 <= c <= 122
    ensures forall i :: 0 <= i < |SPECIALS| && SPECIALS[i] as int == c && c != 46 ==> Table(c) == -(i + 1)
    ensures forall i :: 0 <= i < |CONTROLS| && CONTROLS[i] as int == c ==> Table(c) == CONTROL_VALUES[i]
  {
  }

  /** What \c means where the escape is one letter: a special escape, */
  lemma SpecialReads(i: nat, rest: seq<Byte>, bracount: nat, extra: bool, isclass: bool)
    requires i < |SPECIALS| && SPECIALS[i] != '.'
    ensures CheckEscape([92, SPECIALS[i] as int] + rest, 0, bracount, extra, isclass) == Special(i + 1, 1)
  {
    var c := SPECIALS[i] as int;
    SpecialLetter(i);
    assert Ch([92, c] + rest, 1) == c;
    TableIs(c);
    hide EscapeG, EscapeX, EscapeDigit, EscapeC, Table;
  }

  lemma SpecialLetter(i: nat)
    requires i < |SPECIALS| && SPECIALS[i] != '.'
    ensures 65 <= SPECIALS[i] as int <= 122
  {
  }

  /** or a control character; */
  lemma ControlLetterReads(i: nat, rest: seq<Byte>, bracount: nat, extra: bool, isclass: bool)
    requires i < |CONTROLS|
    ensures CheckEscape([92, CONTROLS[i] as int] + rest, 0, bracount, extra, isclass) == Data(CONTROL_VALUES[i], 1)
  {
    var c := CONTROLS[i] as int;
    assert 97 <= c <= 122;
    assert Ch([92, c] + rest, 1) == c;
    TableIs(c);
    hide EscapeG, EscapeX, EscapeDigit, EscapeC, Table;
  }

  /** and for every other c that needs no more text: an error for the case-changing escapes
      of Perl, the character itself if it is no letter, and for the letters that are left
      the letter or in PCRE_EXTRA mode an error. */
  lemma OtherReads(c: Byte, rest: seq<Byte>, bracount: nat, extra: bool, isclass: bool)
    requires c != 0 && !IsDigit(c)
    ensures var e := CheckEscape([92, c] + rest, 0, bracount, extra, isclass);
      (c in {108, 76, 78, 117, 85} ==> e == Bad(37)) && (!IsUpper(c) && !IsLower(c) ==> e == Data(c, 1)) &&
      (c in {70, 73, 74, 77, 79, 84, 89, 105, 106, 109, 111, 113, 121} ==> e == if extra then Bad(3) else Data(c, 1))
  {
    assert Ch([92, c] + rest, 1) == c;
    hide EscapeG, EscapeX, EscapeDigit, EscapeC;
  }

  /** \c and a letter of either case is the control character with the number of the letter;
      with any other character the bit 64 changes. */
  lemma ControlReads(x: Byte, rest: seq<Byte>, bracount: nat, extra: bool, isclass: bool)
    ensures var e := CheckEscape([92, 99, x] + rest, 0, bracount, extra, isclass);
      if x == 0 then e == Bad(2)
      else e.Data? && e.last == 2 &&
           if IsLower(x) then e.c == x - 96 else e.c % 64 == x % 64 && e.c / 128 == x / 128 && e.c / 64 != x / 64 && (IsUpper(x) ==> e.c == x - 64)
  {
    var pat := [92, 99, x] + rest;
    assert Ch(pat, 1) == 99 && Ch(pat, 2) == x;
  }

  lemma NothingReads(bracount: nat, extra: bool, isclass: bool)
    ensures CheckEscape([92], 0, bracount, extra, isclass) == Bad(1)
  {
    assert Ch([92], 1) == 0;
  }

  // ---------- the code ----------

  method ReadDecimal(pat: seq<Byte>, p: nat, n: nat) returns (d: Number)
    ensures d == Decimal(pat, p, n)
  {
    var q, m: nat := p, n;
    while IsDigit(Ch(pat, q + 1))
      invariant Decimal(pat, p, n) == Decimal(pat, q, m)
      decreases |pat| - q
    {
      q := q + 1;
      m := m * 10 + (Ch(pat, q) as int - 48);
    }
    return Number(m, q);
  }

  method ReadOctal(pat: seq<Byte>, p: nat, n: nat) returns (d: Number)
    ensures d == Octal(pat, p, 2, n)
  {
    var i, q, m: nat := 0, p, n;
    while i < 2 && IsOctal(Ch(pat, q + 1))
      invariant 0 <= i <= 2 && Octal(pat, p, 2, n) == Octal(pat, q, 2 - i, m)
    {
      q := q + 1;
      m := m * 8 + (Ch(pat, q) as int - 48);
      i := i + 1;
    }
    return Number(m, q);
  }

  method ReadHex(pat: seq<Byte>, p: nat) returns (d: Number)
    ensures d == Hex(pat, p, 2, 0)
  {
    var i, q, m: nat := 0, p, 0;
    while i < 2 && IsHex(Ch(pat, q + 1))
      invariant 0 <= i <= 2 && Hex(pat, p, 2, 0) == Hex(pat, q, 2 - i, m)
    {
      q := q + 1;
      m := m * 16 + HexValue(Ch(pat, q));
      i := i + 1;
    }
    return Number(m, q);
  }

  method ReadBraced(pat: seq<Byte>, p: nat) returns (d: Digits)
    ensures d == HexDigits(pat, p, 0, 0)
  {
    var q, n: nat, count := p, 0, 0;
    while IsHex(Ch(pat, q))
      invariant HexDigits(pat, p, 0, 0) == HexDigits(pat, q, n, count)
      decreases |pat| - q
    {
      var cc := Ch(pat, q);
      q := q + 1;
      if n == 0 && cc == 48 { continue; }
      count := count + 1;
      n := n * 16 + HexValue(cc);
    }
    return Digits(n, count, q);
  }

  method ReadPastNumber(pat: seq<Byte>, p: nat) returns (q: nat)
    ensures q == PastNumber(pat, p)
  {
    q := p;
    while Ch(pat, q) != 0 && Ch(pat, q) != 125 && (Ch(pat, q) == 45 || IsDigit(Ch(pat, q)))
      invariant PastNumber(pat, p) == PastNumber(pat, q)
      decreases |pat| - q
    {
      q := q + 1;
    }
  }

  /** check_escape, with the backslash at p. */
  method Check(pat: seq<Byte>, p: nat, bracount: nat, extra: bool, isclass: bool) returns (e: Escaped)
    ensures e == CheckEscape(pat, p, bracount, extra, isclass)
  {
    hide Decimal, Octal, Hex, HexDigits, PastNumber;
    var q, c := p + 1, Ch(pat, p + 1);
    if c == 0 { return Bad(1); }
    if c < 48 || c > 122 { return Data(c, q); }
    var i := Table(c);
    if i > 0 { return Data(i, q); }
    if i < 0 { return Special(-i, q); }
    if c == 108 || c == 76 || c == 78 || c == 117 || c == 85 { return Bad(37); }
    if c == 103 {
      e := CheckG(pat, q, bracount);
    } else if IsDigit(c) {
      if c != 48 && !isclass {
        var d := ReadDecimal(pat, q, c as int - 48);
        if d.n < 10 || d.n <= bracount { return Special(ESC_REF + d.n, d.last); }
      }
      if c >= 56 { return Data(0, q - 1); }
      var o := ReadOctal(pat, q, c as int - 48);
      return if o.n > 255 then Bad(51) else Data(o.n, o.last);
    } else if c == 120 {
      if Ch(pat, q + 1) == 123 {
        var d := ReadBraced(pat, q + 2);
        if Ch(pat, d.end) == 125 { return if d.n >= 0x8000_0000 || d.count > 2 then Bad(34) else Data(d.n, d.end); }
      }
      var h := ReadHex(pat, q);
      return Data(h.n, h.last);
    } else if c == 99 {
      var u := Ch(pat, q + 1);
      if u == 0 { return Bad(2); }
      if IsLower(u) { u := u - 32; }
      return Data(if u / 64 % 2 == 1 then u - 64 else u + 64, q + 1);
    } else {
      return if extra then Bad(3) else Data(c, q);
    }
  }

  method CheckG(pat: seq<Byte>, p: nat, bracount: nat) returns (e: Escaped)
    ensures e == EscapeG(pat, p, bracount)
  {
    hide Decimal, PastNumber;
    var ptr, next := p, Ch(pat, p + 1);
    if next == 60 || next == 39 { return Special(ESC_g, p); }
    var braced := next == 123;
    if braced {
      var past := ReadPastNumber(pat, p + 2);
      if Ch(pat, past) != 0 && Ch(pat, past) != 125 { return Special(ESC_k, p); }
      ptr := ptr + 1;
    }
    var negated := Ch(pat, ptr + 1) == 45;
    if negated { ptr := ptr + 1; }
    var d := ReadDecimal(pat, ptr, 0);
    ptr := d.last;
    if braced {
      ptr := ptr + 1;
      if Ch(pat, ptr) != 125 { return Bad(57); }
    }
    if d.n == 0 { return Bad(58); }
    if negated {
      if d.n > bracount { return Bad(15); }
      return Special(ESC_REF + (bracount - (d.n - 1)), ptr);
    }
    return Special(ESC_REF + d.n, ptr);
  }
}
