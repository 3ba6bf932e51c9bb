/** Bytes of a compiled pattern: opcode numbers, two-byte links and counts, and
    the default ("C" locale) character tables. */
module Bytes {

  type Byte = x: int | 0 <= x < 256

  // Opcodes of the base language. The single-character repeats come in three
  // families of thirteen, in the same order (see RepeatKind below).
  const OP_END: Byte := 0
  const OP_SOD: Byte := 1
  const OP_NOT_DIGIT: Byte := 6
  const OP_DIGIT: Byte := 7
  const OP_NOT_WHITESPACE: Byte := 8
  const OP_WHITESPACE: Byte := 9
  const OP_NOT_WORDCHAR: Byte := 10
  const OP_WORDCHAR: Byte := 11
  const OP_ANY: Byte := 12
  const OP_ALLANY: Byte := 13
  const OP_EODN: Byte := 23
  const OP_EOD: Byte := 24
  const OP_CIRC: Byte := 26
  const OP_DOLL: Byte := 27
  const OP_CHAR: Byte := 28
  const OP_CHARNC: Byte := 29
  const OP_NOT: Byte := 30
  const OP_STAR: Byte := 31
  const OP_NOTSTAR: Byte := 44
  const OP_TYPESTAR: Byte := 57
  const OP_CRSTAR: Byte := 70
  const OP_CRMINQUERY: Byte := 75
  const OP_CRRANGE: Byte := 76
  const OP_CRMINRANGE: Byte := 77
  const OP_CLASS: Byte := 78
  const OP_NCLASS: Byte := 79
  const OP_ALT: Byte := 84
  const OP_KET: Byte := 85
  const OP_KETRMAX: Byte := 86
  const OP_KETRMIN: Byte := 87
  const OP_ONCE: Byte := 93
  const OP_BRA: Byte := 94
  const OP_CBRA: Byte := 95
  const OP_SBRA: Byte := 97
  const OP_SCBRA: Byte := 98
  const OP_BRAZERO: Byte := 103
  const OP_BRAMINZERO: Byte := 104
  const OP_SKIPZERO: Byte := 111

  const LINK_SIZE: nat := 2
  const MAX_PATTERN_SIZE: nat := 0x1_0000

  const NEWLINE: Byte := 10

  /** The two bytes that PUT and PUT2 store for n. */
  function Link(n: nat): (b: seq<Byte>)
    ensures |b| == 2
    ensures n < 0x1_0000 ==> b[0] as int * 256 + b[1] as int == n
  {
    [(n / 256) % 256, n % 256]
  }

  /** The byte at pc; a place outside the code holds no opcode (255 is none). */
  function At(code: seq<Byte>, pc: int): Byte {
    if 0 <= pc < |code| then code[pc] else 255
  }

  /** GET and GET2. */
  function Get(code: seq<Byte>, pc: int): nat {
    At(code, pc) as int * 256 + At(code, pc + 1) as int
  }

  // ---------- character tables ----------

  predicate IsDigit(b: Byte) { 48 <= b <= 57 }

  /** \s: the vertical tab (11) is not included. */
  predicate IsSpace(b: Byte) { b == 9 || b == 10 || b == 12 || b == 13 || b == 32 }

  predicate IsUpper(b: Byte) { 65 <= b <= 90 }

  predicate IsLower(b: Byte) { 97 <= b <= 122 }

  predicate IsLetter(b: Byte) { IsUpper(b) || IsLower(b) }

  predicate IsWord(b: Byte) { IsDigit(b) || IsLetter(b) || b == 95 }

  function Lcc(b: Byte): Byte { if IsUpper(b) then b + 32 else b }

  function Fcc(b: Byte): Byte {
    if IsUpper(b) then b + 32 else if IsLower(b) then b - 32 else b
  }

  function Pow2(i: nat): nat
    requires i < 8
  {
    [1, 2, 4, 8, 16, 32, 64, 128][i]
  }

  /** Bit b % 8 of byte b / 8 of a 32-byte map. */
  predicate BitSet(bits: seq<Byte>, b: Byte)
    requires |bits| == 32
  {
    bits[b / 8] / Pow2(b % 8) % 2 == 1
  }
}
