/** UTF-8: the encoder, the decoding macros and the validator. Shifts and masks are
    written as divisions and remainders. */
module Utf8 {
  import opened Bytes

  const MAX_CODE: nat := 0x7fff_ffff

  // ---------- tables ----------

  /** _pcre_utf8_table1 and 2: how many bytes follow the first one, and its marker bits. */
  function Extras(c: nat): nat {
    if c <= 0x7f then 0 else if c <= 0x7ff then 1 else if c <= 0xffff then 2 else if c <= 0x1f_ffff then 3
    else if c <= 0x3ff_ffff then 4 else 5
  }

  const LIMITS: seq<nat> := [0x7f, 0x7ff, 0xffff, 0x1f_ffff, 0x3ff_ffff, 0x7fff_ffff]

  function Marker(i: nat): Byte
    requires i < 6
  {
    [0, 0xc0, 0xe0, 0xf0, 0xf8, 0xfc][i]
  }

  /** One more than the mask of _pcre_utf8_table3. */
  function Room(i: nat): nat
    requires i < 6
  {
    [256, 32, 16, 8, 4, 2][i]
  }

  /** _pcre_utf8_table4, for a first byte of 0xc0 or more. */
  function Following(b: Byte): (n: nat)
    requires b >= 0xc0
    ensures 1 <= n <= 5
  {
    if b < 0xe0 then 1 else if b < 0xf0 then 2 else if b < 0xf8 then 3 else if b < 0xfc then 4 else 5
  }

  function Pow64(n: nat): (p: nat)
    ensures p > 0
  {
    if n == 0 then 1 else 64 * Pow64(n - 1)
  }

  predicate IsTail(b: Byte) { 0x80 <= b < 0xc0 }

  // ---------- coding ----------

  /** The last j bytes of an encoding. */
  function Tail(c: nat, j: nat): (t: seq<Byte>)
    ensures |t| == j
    ensures forall k :: 0 <= k < j ==> IsTail(t[k])
  {
    if j == 0 then [] else Tail(c / 64, j - 1) + [0x80 + c % 64]
  }

  function High(c: nat, j: nat): nat { if j == 0 then c else High(c / 64, j - 1) }

  lemma {:induction false} HighBound(c: nat, j: nat, room: nat)
    requires c < room * Pow64(j)
    ensures High(c, j) < room
    decreases j
  {
    if j > 0 {
      assert room * Pow64(j) == (room * Pow64(j - 1)) * 64;
      HighBound(c / 64, j - 1, room);
    }
  }

  lemma LeadFits(c: nat)
    requires c <= MAX_CODE
    ensures High(c, Extras(c)) < Room(Extras(c)) && Marker(Extras(c)) + High(c, Extras(c)) < 256
    ensures Extras(c) == 0 ==> High(c, 0) < 128
  {
    assert Pow64(1) == 64 && Pow64(2) == 4096 && Pow64(3) == 0x4_0000 && Pow64(4) == 0x100_0000 && Pow64(5) == 0x4000_0000;
    HighBound(c, Extras(c), Room(Extras(c)));
  }

  /** The first byte of an encoding tells the number and holds the high bits. */
  lemma LeadTells(c: nat)
    requires c <= MAX_CODE
    ensures var i := Extras(c);
      var b := Marker(i) + High(c, i);
      b < 256 && (if i == 0 then b < 0xc0 && b == c else b >= 0xc0 && Following(b) == i && b % Room(i) == High(c, i))
  {
    LeadFits(c);
    if Extras(c) > 0 {
      LeadRoom(c);
      hide High;
    }
  }

  lemma LeadRoom(c: nat)
    requires c <= MAX_CODE && Extras(c) > 0
    ensures Marker(Extras(c)) % Room(Extras(c)) == 0
  {
  }

  /** The encoding of c: up to six bytes. */
  function Encode(c: nat): (e: seq<Byte>)
    requires c <= MAX_CODE
    ensures |e| == Extras(c) + 1
  {
    LeadFits(c);
    [Marker(Extras(c)) + High(c, Extras(c))] + Tail(c, Extras(c))
  }

  /** The data bits of the n bytes at p, below those of acc. */
  function Gather(s: seq<Byte>, p: nat, n: nat, acc: nat): nat
    requires p + n <= |s|
    decreases n
  {
    if n == 0 then acc else Gather(s, p + 1, n - 1, acc * 64 + s[p] % 64)
  }

  function Width(s: seq<Byte>, p: nat): (w: nat)
    requires p < |s|
    ensures w >= 1
  {
    if s[p] < 0xc0 then 1 else 1 + Following(s[p])
  }

  /** The character at p. */
  function Decode(s: seq<Byte>, p: nat): nat
    requires p < |s| && p + Width(s, p) <= |s|
  {
    if s[p] < 0xc0 then s[p] else Gather(s, p + 1, Following(s[p]), s[p] % Room(Following(s[p])))
  }

  lemma {:induction false} GatherTail(s: seq<Byte>, p: nat, c: nat, j: nat)
    requires p + j <= |s| && s[p..p + j] == Tail(c, j)
    ensures Gather(s, p, j, High(c, j)) == c
    decreases j
  {
    if j > 0 {
      assert s[p..p + j - 1] == Tail(c / 64, j - 1) by { assert Tail(c, j)[..j - 1] == Tail(c / 64, j - 1); }
      GatherTail(s, p, c / 64, j - 1);
      GatherLast(s, p, j - 1, High(c / 64, j - 1));
      assert s[p + j - 1] == s[p..p + j][j - 1];
    }
  }

  lemma {:induction false} GatherLast(s: seq<Byte>, p: nat, n: nat, acc: nat)
    requires p + n < |s|
    ensures Gather(s, p, n + 1, acc) == Gather(s, p, n, acc) * 64 + s[p + n] % 64
    decreases n
  {
    if n > 0 { GatherLast(s, p + 1, n - 1, acc * 64 + s[p] % 64); }
  }

  /** The decoding macros invert the encoder on all its inputs, wherever the code stands. */
  lemma DecodeEncode(s: seq<Byte>, p: nat, c: nat)
    requires c <= MAX_CODE && p + |Encode(c)| <= |s| && s[p..p + |Encode(c)|] == Encode(c)
    ensures Width(s, p) == |Encode(c)| && Decode(s, p) == c
  {
    hide High, Tail, Gather, Marker, Room, Pow64, Extras;
    var i := Extras(c);
    LeadTells(c);
    assert s[p] == s[p..p + i + 1][0];
    if i > 0 {
      assert s[p + 1..p + 1 + i] == s[p..p + i + 1][1..];
      GatherTail(s, p + 1, c, i);
    }
  }

  /** The bytes after the first, from the last one backwards; what is left of c. */
  method FillTail(cvalue: nat, buffer: array<Byte>, at: nat, i: nat) returns (c: nat)
    requires at + i <= buffer.Length
    modifies buffer
    ensures c == High(cvalue, i) && buffer[..] == old(buffer[..at]) + Tail(cvalue, i) + old(buffer[at + i..])
  {
    c := cvalue;
    var j: nat := i;
    ghost var done: seq<Byte> := [];
    while j > 0
      invariant j <= i && |done| == i - j && Tail(cvalue, i) == Tail(c, j) + done && High(cvalue, i) == High(c, j)
      invariant buffer[..] == old(buffer[..at + j]) + done + old(buffer[at + i..])
    {
      buffer[at + j - 1] := 0x80 + c % 64;
      done := [0x80 + c % 64] + done;
      c, j := c / 64, j - 1;
    }
  }

  /** _pcre_ord2utf8: writes the encoding of cvalue at start. */
  method Ord2Utf8(cvalue: nat, buffer: array<Byte>, start: nat) returns (n: nat)
    requires cvalue <= MAX_CODE && start + 6 <= buffer.Length
    modifies buffer
    ensures n == |Encode(cvalue)| <= 6
    ensures buffer[..] == old(buffer[..start]) + Encode(cvalue) + old(buffer[start + n..])
  {
    hide Pow64, High, Tail;
    var i: nat := 0;
    while i < 6 && cvalue > LIMITS[i]
      invariant i < 6 && (i > 0 ==> cvalue > LIMITS[i - 1])
    {
      i := i + 1;
    }
    assert i == Extras(cvalue);
    LeadFits(cvalue);
    var c := FillTail(cvalue, buffer, start + 1, i);
    buffer[start] := Marker(i) + c;
    return i + 1;
  }

  lemma ShiftIn(acc: nat, d: nat, n: nat)
    ensures acc * Pow64(n + 1) + d * Pow64(n) == (acc * 64 + d) * Pow64(n)
  {
  }

  /** GETCHARINC. */
  method GetCharInc(s: seq<Byte>, p: nat) returns (c: nat, next: nat)
    requires p < |s| && p + Width(s, p) <= |s|
    ensures c == Decode(s, p) && next == p + Width(s, p)
  {
    c, next := s[p], p + 1;
    if c >= 0xc0 {
      c := GetTail(s, next, Following(s[p]), s[p] % Room(Following(s[p])));
      next := next + Following(s[p]);
    }
  }

  /** Its loop: the n bytes at p, shifted into place below acc. */
  method GetTail(s: seq<Byte>, p: nat, n: nat, acc: nat) returns (c: nat)
    requires p + n <= |s|
    ensures c == Gather(s, p, n, acc)
  {
    hide Pow64;
    var next, left: nat := p, n;
    ghost var sofar := acc;
    c := acc * Pow64(n);
    while left > 0
      invariant next + left == p + n && c == sofar * Pow64(left) && Gather(s, p, n, acc) == Gather(s, next, left, sofar)
    {
      left := left - 1;
      ShiftIn(sofar, s[next] % 64, left);
      c := c + (s[next] % 64) * Pow64(left);
      sofar := sofar * 64 + s[next] % 64;
      next := next + 1;
    }
    PowZero(sofar);
  }

  lemma PowZero(c: nat)
    ensures c * Pow64(0) == c
  {
  }

  // ---------- well-formed strings ----------

  /** UTF8-char of section 4 of RFC 3629. */
  predicate IsChar(s: seq<Byte>) {
    if |s| == 1 then s[0] <= 0x7f
    else if |s| == 2 then 0xc2 <= s[0] <= 0xdf && IsTail(s[1])
    else if |s| == 3 then
      IsTail(s[2]) &&
      ((s[0] == 0xe0 && 0xa0 <= s[1] <= 0xbf) || (0xe1 <= s[0] <= 0xec && IsTail(s[1])) ||
       (s[0] == 0xed && 0x80 <= s[1] <= 0x9f) || (0xee <= s[0] <= 0xef && IsTail(s[1])))
    else
      |s| == 4 && IsTail(s[2]) && IsTail(s[3]) &&
      ((s[0] == 0xf0 && 0x90 <= s[1] <= 0xbf) || (0xf1 <= s[0] <= 0xf3 && IsTail(s[1])) || (s[0] == 0xf4 && 0x80 <= s[1] <= 0x8f))
  }

  /** A character of n bytes at p. */
  predicate CharAt(s: seq<Byte>, p: nat, n: nat) { 1 <= n && p + n <= |s| && IsChar(s[p..p + n]) }

  /** UTF8-octets, from p on. */
  ghost predicate Octets(s: seq<Byte>, p: nat)
    requires p <= |s|
    decreases |s| - p
  {
    p == |s| || exists n: nat :: CharAt(s, p, n) && Octets(s, p + n)
  }

  /** The first byte decides how long a character is. */
  lemma CharWidth(s: seq<Byte>, p: nat, n: nat)
    requires CharAt(s, p, n)
    ensures p < |s| && n == Width(s, p) <= 4
  {
    assert s[p] == s[p..p + n][0];
  }

  lemma OctetsStep(s: seq<Byte>, p: nat)
    requires p < |s|
    ensures Octets(s, p) <==> CharAt(s, p, Width(s, p)) && Octets(s, p + Width(s, p))
  {
    if Octets(s, p) {
      var n: nat :| CharAt(s, p, n) && Octets(s, p + n);
      CharWidth(s, p, n);
    }
  }

  /** A boundary between characters, counted from the start of s. */
  ghost predicate Boundary(s: seq<Byte>, p: nat)
    requires p <= |s|
    decreases p
  {
    p == 0 || exists q: nat :: q < p && Boundary(s, q) && CharAt(s, q, p - q)
  }

  lemma BoundaryStep(s: seq<Byte>, p: nat, n: nat)
    requires p <= |s| && Boundary(s, p) && CharAt(s, p, n)
    ensures Boundary(s, p + n)
  {
    assert Boundary(s, p) && CharAt(s, p, p + n - p);
  }

  /** One character of the check: the offset of a bad byte, or how many bytes are good. */
  method CheckChar(s: seq<Byte>, p: nat) returns (bad: int, n: nat)
    requires p < |s|
    ensures if bad < 0 then bad == -1 && CharAt(s, p, n) else !CharAt(s, p, Width(s, p)) && p <= bad < |s| && bad < p + Width(s, p)
  {
    var c := s[p];
    if c < 0x80 {
      assert s[p..p + 1] == [c];
      return -1, 1;
    }
    if c < 0xc0 { return p, 0; }
    var ab := Following(c);
    n := ab + 1;
    if |s| - p - 1 < ab || ab > 3 { return p, n; }
    ghost var t := s[p..p + n];
    assert t[0] == c && t[1] == s[p + 1] && (ab > 1 ==> t[2] == s[p + 2]) && (ab > 2 ==> t[3] == s[p + 3]);
    var q, b := p + 1, s[p + 1];
    if !IsTail(b) { return q, n; }
    if ab == 1 {
      if c % 64 / 2 == 0 { return q, n; }
      return -1, n;
    }
    if ab == 2 && ((c == 0xe0 && b / 32 % 2 == 0) || (c == 0xed && b >= 0xa0)) { return q, n; }
    if ab == 3 && ((c == 0xf0 && b / 16 % 4 == 0) || c > 0xf4 || (c == 0xf4 && b > 0x8f)) { return q, n; }
    ab := ab - 1;
    while ab > 0
      invariant 0 <= ab && q + ab == p + n - 1 && p < q
      invariant forall k :: p < k <= q ==> IsTail(s[k])
    {
      q := q + 1;
      if !IsTail(s[q]) {
        assert t[q - p] == s[q];
        return q, n;
      }
      ab := ab - 1;
    }
    return -1, n;
  }

  /** The byte at r belongs to the first thing that is not a character, which begins at p. */
  ghost predicate BadChar(s: seq<Byte>, p: nat, r: int) {
    p < |s| && Boundary(s, p) && !CharAt(s, p, Width(s, p)) && p <= r < p + Width(s, p)
  }

  /** _pcre_valid_utf8: -1 exactly for the strings of RFC 3629; otherwise the offset of a
      byte of the first character that is not one. */
  method ValidUtf8(s: seq<Byte>) returns (r: int)
    ensures r == -1 <==> Octets(s, 0)
    ensures r != -1 ==> 0 <= r < |s| && exists p: nat :: BadChar(s, p, r)
  {
    var p: nat := 0;
    while p < |s|
      invariant p <= |s| && Boundary(s, p) && (Octets(s, 0) <==> Octets(s, p))
    {
      OctetsStep(s, p);
      var bad, n := CheckChar(s, p);
      if bad >= 0 {
        assert BadChar(s, p, bad);
        return bad;
      }
      CharWidth(s, p, n);
      BoundaryStep(s, p, n);
      p := p + n;
    }
    return -1;
  }

  // ---------- which encodings are valid ----------

  predicate IsScalar(c: nat) { c <= 0x10_ffff && !(0xd800 <= c <= 0xdfff) }

  lemma Encode1(c: nat)
    requires c <= 0x7f
    ensures Encode(c) == [c]
  {
  }

  lemma Encode2(c: nat)
    requires 0x80 <= c <= 0x7ff
    ensures Encode(c) == [0xc0 + c / 64, 0x80 + c % 64]
  {
    assert Tail(c / 64, 0) == [];
    assert Tail(c, 1) == [0x80 + c % 64];
    assert High(c, 1) == High(c / 64, 0);
  }

  lemma Encode3(c: nat)
    requires 0x800 <= c <= 0xffff
    ensures Encode(c) == [0xe0 + c / 4096, 0x80 + c / 64 % 64, 0x80 + c % 64]
  {
    assert c / 64 / 64 == c / 4096;
    assert Tail(c / 64 / 64, 0) == [] && Tail(c / 64, 1) == [0x80 + c / 64 % 64];
    assert High(c, 2) == High(c / 64, 1) == High(c / 64 / 64, 0);
  }

  lemma Encode4(c: nat)
    requires 0x1_0000 <= c <= 0x1f_ffff
    ensures Encode(c) == [0xf0 + c / 0x4_0000, 0x80 + c / 4096 % 64, 0x80 + c / 64 % 64, 0x80 + c % 64]
  {
    assert c / 64 / 64 == c / 4096 && c / 4096 / 64 == c / 0x4_0000;
    assert Tail(c / 4096 / 64, 0) == [] && Tail(c / 4096, 1) == [0x80 + c / 4096 % 64];
    assert Tail(c / 64, 2) == [0x80 + c / 4096 % 64, 0x80 + c / 64 % 64];
    assert High(c, 3) == High(c / 64, 2) == High(c / 4096, 1) == High(c / 4096 / 64, 0);
  }

  /** The validator accepts what the encoder makes exactly for the characters of Unicode. */
  lemma EncodeIsValid(c: nat)
    requires c <= MAX_CODE
    ensures Octets(Encode(c), 0) <==> IsScalar(c)
  {
    var e := Encode(c);
    DecodeEncode(e, 0, c);
    OctetsStep(e, 0);
    assert e[0..|e|] == e;
    hide Encode, Octets;
    if c <= 0x7f { Encode1(c); } else if c <= 0x7ff { Scalar2(c); } else if c <= 0xffff { Scalar3(c); }
    else if c <= 0x1f_ffff { Scalar4(c); }
  }

  lemma Scalar2(c: nat)
    requires 0x80 <= c <= 0x7ff
    ensures IsChar(Encode(c))
  {
    Encode2(c);
    hide Encode;
  }

  lemma Scalar3(c: nat)
    requires 0x800 <= c <= 0xffff
    ensures IsChar(Encode(c)) <==> IsScalar(c)
  {
    Encode3(c);
    hide Encode;
  }

  lemma Scalar4(c: nat)
    requires 0x1_0000 <= c <= 0x1f_ffff
    ensures IsChar(Encode(c)) <==> IsScalar(c)
  {
    Encode4(c);
    hide Encode;
  }

  /** A well-formed character is the encoding of what it decodes to. */
  lemma EncodeDecode(s: seq<Byte>, p: nat, n: nat)
    requires CharAt(s, p, n)
    ensures p < |s| && n == Width(s, p) && IsScalar(Decode(s, p)) && Encode(Decode(s, p)) == s[p..p + n]
  {
    hide Encode, Decode;
    CharWidth(s, p, n);
    var t := s[p..p + n];
    assert forall k :: 0 <= k < n ==> t[k] == s[p + k];
    assert IsChar(t);
    if n == 1 {
      Decode1(s, p);
      Encode1(s[p]);
    } else if n == 2 {
      Decode2(s, p);
      Back2(t);
    } else if n == 3 {
      Decode3(s, p);
      Back3(t);
    } else {
      Decode4(s, p);
      Back4(t);
    }
  }

  lemma Decode1(s: seq<Byte>, p: nat)
    requires p < |s| && s[p] < 0xc0
    ensures Decode(s, p) == s[p]
  {
  }

  lemma Back2(t: seq<Byte>)
    requires |t| == 2 && IsChar(t)
    ensures var c := t[0] as int % 32 * 64 + t[1] as int % 64; IsScalar(c) && Encode(c) == t
  {
    var c := t[0] as int % 32 * 64 + t[1] as int % 64;
    Encode2(c);
    hide Encode;
    assert c / 64 == t[0] - 0xc0 && c % 64 == t[1] - 0x80;
  }

  lemma Back3(t: seq<Byte>)
    requires |t| == 3 && IsChar(t)
    ensures var c := (t[0] as int % 16 * 64 + t[1] as int % 64) * 64 + t[2] as int % 64; IsScalar(c) && Encode(c) == t
  {
    hide Encode;
    var a, b, d: nat := t[0] as int - 0xe0, t[1] as int - 0x80, t[2] as int - 0x80;
    var x, c := a * 64 + b, (a * 64 + b) * 64 + d;
    Digits(a, b);
    Digits(x, d);
    Encode3(c);
    assert c / 4096 == x / 64;
  }

  lemma Shifts(c: nat)
    ensures c / 4096 == c / 64 / 64 && c / 0x4_0000 == c / 64 / 64 / 64
  {
  }

  lemma Digits(x: nat, d: nat)
    requires d < 64
    ensures (x * 64 + d) / 64 == x && (x * 64 + d) % 64 == d
  {
  }

  lemma Back4(t: seq<Byte>)
    requires |t| == 4 && IsChar(t)
    ensures var c := ((t[0] as int % 8 * 64 + t[1] as int % 64) * 64 + t[2] as int % 64) * 64 + t[3] as int % 64; IsScalar(c) && Encode(c) == t
  {
    hide Encode;
    var a, b, d, f: nat := t[0] as int - 0xf0, t[1] as int - 0x80, t[2] as int - 0x80, t[3] as int - 0x80;
    LowBits(t[0], 8, a, 30);
    LowBits(t[1], 64, b, 2);
    LowBits(t[2], 64, d, 2);
    LowBits(t[3], 64, f, 2);
    FourDigits(a, b, d, f);
  }

  lemma LowBits(b: Byte, m: nat, low: nat, q: nat)
    requires (m == 8 || m == 64) && low < m && b == q * m + low
    ensures b as int % m == low
  {
  }

  lemma FourDigits(a: nat, b: nat, d: nat, f: nat)
    requires a < 8 && b < 64 && d < 64 && f < 64 && 0x1_0000 <= ((a * 64 + b) * 64 + d) * 64 + f
    ensures Encode(((a * 64 + b) * 64 + d) * 64 + f) == [0xf0 + a, 0x80 + b, 0x80 + d, 0x80 + f]
  {
    hide Encode;
    var x, y := a * 64 + b, (a * 64 + b) * 64 + d;
    Digits(a, b);
    Digits(x, d);
    Digits(y, f);
    Shifts(y * 64 + f);
    Encode4(y * 64 + f);
  }

  lemma Decode2(s: seq<Byte>, p: nat)
    requires p + 2 <= |s| && 0xc0 <= s[p] < 0xe0
    ensures Decode(s, p) == s[p] as int % 32 * 64 + s[p + 1] as int % 64
  {
    assert Gather(s, p + 2, 0, s[p] as int % 32 * 64 + s[p + 1] as int % 64) == s[p] as int % 32 * 64 + s[p + 1] as int % 64;
  }

  lemma Decode3(s: seq<Byte>, p: nat)
    requires p + 3 <= |s| && 0xe0 <= s[p] < 0xf0
    ensures Decode(s, p) == (s[p] as int % 16 * 64 + s[p + 1] as int % 64) * 64 + s[p + 2] as int % 64
  {
    var c := s[p] as int % 16 * 64 + s[p + 1] as int % 64;
    assert Gather(s, p + 2, 1, c) == Gather(s, p + 3, 0, c * 64 + s[p + 2] as int % 64);
  }

  lemma Decode4(s: seq<Byte>, p: nat)
    requires p + 4 <= |s| && 0xf0 <= s[p] < 0xf8
    ensures Decode(s, p) == ((s[p] as int % 8 * 64 + s[p + 1] as int % 64) * 64 + s[p + 2] as int % 64) * 64 + s[p + 3] as int % 64
  {
    var c := s[p] as int % 8 * 64 + s[p + 1] as int % 64;
    assert Gather(s, p + 2, 2, c) == Gather(s, p + 3, 1, c * 64 + s[p + 2] as int % 64);
    var d := c * 64 + s[p + 2] as int % 64;
    assert Gather(s, p + 3, 1, d) == Gather(s, p + 4, 0, d * 64 + s[p + 3] as int % 64);
  }

  // ---------- stepping ----------

  /** BACKCHAR: back to the first byte of a character. */
  method BackChar(s: seq<Byte>, p0: nat) returns (p: nat)
    requires p0 < |s| && exists q :: 0 <= q <= p0 && !IsTail(s[q])
    ensures p <= p0 && !IsTail(s[p]) && forall k :: p < k <= p0 ==> IsTail(s[k])
  {
    p := p0;
    while IsTail(s[p])
      invariant 0 <= p <= p0 && (exists q :: 0 <= q <= p && !IsTail(s[q])) && forall k :: p < k <= p0 ==> IsTail(s[k])
      decreases p
    {
      p := p - 1;
    }
  }

  /** On an accepted string, stepping back undoes stepping forward: from any byte of
      a character, BACKCHAR finds its first. */
  lemma BackUndoes(s: seq<Byte>, p: nat, n: nat, at: nat, back: nat)
    requires CharAt(s, p, n) && p <= at < p + n
    requires back <= at && !IsTail(s[back]) && forall k :: back < k <= at ==> IsTail(s[k])
    ensures back == p && p + n == p + Width(s, p)
  {
    CharWidth(s, p, n);
    var t := s[p..p + n];
    assert forall k :: 0 <= k < n ==> t[k] == s[p + k];
  }
}
