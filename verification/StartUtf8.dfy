/** The starting bytes of a class in UTF-8 mode (set_start_bits). */
module StartUtf8 {
  import opened Bytes
  import opened Classes
  import Utf8

  /** Characters of the map that begin with the byte b. The source tests a whole byte of
      the map where it means one bit, so b stands for more characters than it need. */
  predicate Starts(bitmap: seq<Byte>, nclass: bool, b: Byte)
    requires |bitmap| == 32
  {
    (b < 128 && BitSet(bitmap, b)) || (b == 0xc2 && exists k :: 16 <= k < 24 && bitmap[k] != 0) ||
    (b == 0xc3 && exists k :: 24 <= k < 32 && bitmap[k] != 0) || (nclass && b >= 0xc4)
  }

  /** The case of OP_CLASS and OP_NCLASS. */
  method SetClassUtf8(bits: array<bool>, bitmap: seq<Byte>, nclass: bool)
    requires bits.Length == 256 && |bitmap| == 32
    modifies bits
    ensures forall b :: 0 <= b < 256 ==> bits[b] == (old(bits[b]) || Starts(bitmap, nclass, b))
  {
    hide BitSet;
    if nclass {
      forall b | 0xc4 <= b < 256 { bits[b] := true; }
    }
    forall b | 0 <= b < 128 { bits[b] := bits[b] || BitSet(bitmap, b); }
    ghost var was := bits[..];
    var c := 128;
    while c < 256
      invariant 128 <= c <= 256
      invariant forall b :: 0 <= b < 256 && b != 0xc2 && b != 0xc3 ==> bits[b] == was[b]
      invariant bits[0xc2] == (was[0xc2] || exists k :: 16 <= k < 24 && bitmap[k] != 0 && 8 * k < c)
      invariant bits[0xc3] == (was[0xc3] || exists k :: 24 <= k < 32 && bitmap[k] != 0 && 8 * k < c)
    {
      if bitmap[c / 8] != 0 {
        bits[0xc0 + c / 64] := true;
        c := c / 64 * 64 + 63;
      }
      c := c + 1;
    }
  }

  /** Every character that the class accepts begins with a byte whose bit is set. */
  lemma StartsSound(bitmap: seq<Byte>, nclass: bool, caseless: bool, c: nat)
    requires |bitmap| == 32 && c <= Utf8.MAX_CODE && Accepts(Mode(true, caseless), MapItem(nclass, bitmap), c)
    ensures Starts(bitmap, nclass, Utf8.Encode(c)[0])
  {
    if c <= 0x7f {
      Utf8.Encode1(c);
    } else if c < 256 {
      Utf8.Encode2(c);
      BitByte(bitmap, c);
      assert 16 <= c / 8 < 32 && bitmap[c / 8] != 0;
    } else {
      HighStart(c);
    }
  }

  lemma BitByte(bitmap: seq<Byte>, c: Byte)
    requires |bitmap| == 32 && BitSet(bitmap, c)
    ensures bitmap[c / 8] != 0
  {
  }

  lemma HighStart(c: nat)
    requires 256 <= c <= Utf8.MAX_CODE
    ensures Utf8.Encode(c)[0] >= 0xc4
  {
    if c <= 0x7ff { Utf8.Encode2(c); }
  }
}
