/** The 32-bit machine words and bytes that the FinSH compiler and virtual machine
    exchange: little-endian operands (FINSH_SET32 / FINSH_GET32) and the arithmetic
    that OP_BIN_DWORD performs on the `long_value` member of a stack slot. */
module FinshWord {
  import Bits

  type Byte = x: int | 0 <= x < 256
  type Word = x: int | 0 <= x < 0x1_0000_0000

  /** Conversion of an arbitrary integer to a 32-bit word: wrap-around. */
  function ToWord(x: int): Word {
    x % 0x1_0000_0000
  }

  /** The value of a word read as a C `long`. */
  function Signed(w: Word): int {
    if w < 0x8000_0000 then w else w - 0x1_0000_0000
  }

  /** C division and remainder: truncation towards zero. The C program is undefined
      for a zero divisor; the model yields 0 there. */
  function TruncDiv(a: int, b: int): int {
    if b == 0 then 0
    else if (a < 0) == (b < 0) then Abs(a) / Abs(b) else -(Abs(a) / Abs(b))
  }

  function TruncMod(a: int, b: int): int {
    a - b * TruncDiv(a, b)
  }

  function Abs(a: int): nat {
    if a < 0 then -a else a
  }

  lemma Low32()
    ensures Bits.Pow2(32) == 0x1_0000_0000
  {
    assert Bits.Pow2(4) == 16;
    assert Bits.Pow2(8) == 256;
    assert Bits.Pow2(12) == 0x1000;
    assert Bits.Pow2(16) == 0x1_0000;
    assert Bits.Pow2(20) == 0x10_0000;
    assert Bits.Pow2(24) == 0x100_0000;
    assert Bits.Pow2(28) == 0x1000_0000;
  }

  datatype BinOp = Add | Sub | Mul | Div | Mod | And | Or | Xor | Shl | Shr

  /** What OP_BIN_DWORD leaves in the lower of the two slots. Shift distances of 32 and
      more, undefined in C, shift every bit out. */
  function Alu(op: BinOp, a: Word, b: Word): Word {
    match op
    case Add => ToWord(a + b)
    case Sub => ToWord(a - b)
    case Mul => ToWord(a * b)
    case Div => ToWord(TruncDiv(Signed(a), Signed(b)))
    case Mod => ToWord(TruncMod(Signed(a), Signed(b)))
    case And => Low32(); Bits.CombinedSmall(a, b, 32); Bits.Both(a, b)
    case Or => Low32(); Bits.CombinedSmall(a, b, 32); Bits.Either(a, b)
    case Xor => Low32(); Bits.CombinedSmall(a, b, 32); Bits.Differ(a, b)
    case Shl => if b < 32 then ToWord(a * Bits.Pow2(b)) else 0
    case Shr => if b < 32 then ToWord(Signed(a) / Bits.Pow2(b)) else if Signed(a) < 0 then 0xffff_ffff else 0
  }

  /** OP_bw_dword: bitwise complement. */
  function Complement(a: Word): Word {
    0xffff_ffff - a
  }

  /** FINSH_SET32: the four bytes of a word, least significant first. */
  function Put32(w: Word): (b: seq<Byte>)
    ensures |b| == 4
  {
    [w % 256, w / 256 % 256, w / 65536 % 256, w / 16777216]
  }

  /** FINSH_GET32. */
  function Get32(b: seq<Byte>): Word
    requires |b| == 4
  {
    var (b0: int, b1: int, b2: int, b3: int) := (b[0], b[1], b[2], b[3]);
    b0 + 256 * b1 + 65536 * b2 + 16777216 * b3
  }

  /** An operand read back from the text segment is the operand that was written. */
  lemma Get32Put32(w: Word)
    ensures Get32(Put32(w)) == w
  {
    var q1 := w / 256;
    var q2 := w / 65536;
    assert q2 == q1 / 256;
    assert w / 16777216 == q2 / 256;
    assert w == 256 * q1 + w % 256;
    assert q1 == 256 * q2 + q1 % 256;
    assert q2 == 256 * (q2 / 256) + q2 % 256;
  }
}
