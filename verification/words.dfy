/** 16-bit words and bytes of the LC-3, and the pure bit-level helpers
    of lc3.c: byte swapping and sign extension. */
module Words {

  /** A machine word: every register, memory cell and instruction. */
  type Word = bv16

  /** A byte as the host reads and writes it. */
  type Byte = bv8

  const WORD_MODULUS: int := 0x1_0000

  /** The bytes of an ASCII string. */
  function Ascii(s: string): (bs: seq<Byte>)
    ensures |bs| == |s|
  {
    seq(|s|, i requires 0 <= i < |s| => (s[i] as int % 0x100) as Byte)
  }

  /** Low byte of a word. */
  function Lo(w: Word): Byte {
    (w & 0xFF) as Byte
  }

  /** High byte of a word. */
  function Hi(w: Word): Byte {
    (w >> 8) as Byte
  }

  /** The word with the given high and low bytes. */
  function Join(hi: Byte, lo: Byte): (w: Word)
    ensures Hi(w) == hi && Lo(w) == lo
  {
    ((hi as Word) << 8) | (lo as Word)
  }

  /** Every word is determined by its two bytes. */
  lemma SplitJoin(w: Word)
    ensures Join(Hi(w), Lo(w)) == w
  {
  }

  /** The word read as a 16-bit two's-complement integer. */
  function Signed(w: Word): (v: int)
    ensures -0x8000 <= v < 0x8000
  {
    var u := w as int;
    if u < 0x8000 then u else u - WORD_MODULUS
  }

  /** A word is negative exactly when its top bit is set, and zero
      exactly when it is the zero word. */
  lemma SignedSign(w: Word)
    ensures Signed(w) < 0 <==> w >> 15 == 1
    ensures Signed(w) == 0 <==> w == 0
  {
  }

  /** A host char widened to a word. The host's char is signed, so a
      byte with its top bit set becomes a word with all high bits set. */
  function CharToWord(c: Byte): (w: Word)
    ensures Lo(w) == c
    ensures Hi(w) == (if c < 0x80 then 0 else 0xFF)
  {
    SignExtend(c as Word, 8)
  }

  /** Exchanges the two bytes of a word (big-endian image to host order). */
  function Swap16(x: Word): (r: Word)
    ensures Hi(r) == Lo(x) && Lo(r) == Hi(x)
  {
    (x << 8) | (x >> 8)
  }

  /** Swapping twice is the identity. */
  lemma Swap16Involution(x: Word)
    ensures Swap16(Swap16(x)) == x
  {
  }

  /** Swap16 is a bijection on words. */
  lemma Swap16Injective(x: Word, y: Word)
    ensures Swap16(x) == Swap16(y) <==> x == y
  {
    Swap16Involution(x);
    Swap16Involution(y);
  }

  /** The widths of the sign-extended fields of an instruction: imm5,
      offset6, PCoffset9 and PCoffset11. */
  predicate FieldWidth(n: nat) {
    n == 5 || n == 6 || n == 9 || n == 11
  }

  /** 2^n for a field width n. */
  function FieldSize(n: nat): (size: int)
    requires FieldWidth(n)
    ensures size > 0
  {
    if n == 5 then 32 else if n == 6 then 64 else if n == 9 then 512 else 2048
  }

  /** The value of the n-bit field f (0 <= f < 2^n) read as two's
      complement. */
  function FieldValue(f: int, n: nat): int
    requires FieldWidth(n) && 0 <= f < FieldSize(n)
  {
    if 2 * f < FieldSize(n) then f else f - FieldSize(n)
  }

  /** Widens the n-bit two's-complement field in the low bits of x to a
      word: when bit n-1 is set, every bit from n upwards is set. */
  function SignExtend(x: Word, n: nat): Word
    requires 1 <= n <= 16
  {
    if (x >> (n - 1)) & 1 == 1 then x | (0xFFFF << n) else x
  }

  /** At each field width n, sign extension keeps the low n bits (the
      field); for a field with nothing above it, bits n-1..15 of the
      result are all copies of the sign bit (bit n-1). */
  lemma SignExtendBitwise(x: Word)
    ensures SignExtend(x, 5) << 11 == x << 11
    ensures SignExtend(x, 6) << 10 == x << 10
    ensures SignExtend(x, 9) << 7 == x << 7
    ensures SignExtend(x, 11) << 5 == x << 5
    ensures x >> 5 == 0 ==> SignExtend(x, 5) >> 4 == (if x >> 4 == 1 then 0x0FFF else 0)
    ensures x >> 6 == 0 ==> SignExtend(x, 6) >> 5 == (if x >> 5 == 1 then 0x07FF else 0)
    ensures x >> 9 == 0 ==> SignExtend(x, 9) >> 8 == (if x >> 8 == 1 then 0x00FF else 0)
    ensures x >> 11 == 0 ==> SignExtend(x, 11) >> 10 == (if x >> 10 == 1 then 0x003F else 0)
  {
  }

  // Sign extension at each field width, on bit patterns: with the sign
  // bit clear the field is unchanged; with it set, the bits above the
  // field are filled, which adds 2^16 - 2^n to the unsigned value.

  lemma SignExtendBits5(x: Word)
    requires x as int < 32
    ensures x as int < 16 ==> SignExtend(x, 5) == x
    ensures x as int >= 16 ==> SignExtend(x, 5) as int == x as int + 0xFFE0
  {
    assert x >> 5 == 0;
    if x as int >= 16 {
      assert x >> 4 == 1;
      assert SignExtend(x, 5) == x | 0xFFE0;
      assert (x | 0xFFE0) as int == x as int + 0xFFE0;
    }
  }

  lemma SignExtendBits6(x: Word)
    requires x as int < 64
    ensures x as int < 32 ==> SignExtend(x, 6) == x
    ensures x as int >= 32 ==> SignExtend(x, 6) as int == x as int + 0xFFC0
  {
    assert x >> 6 == 0;
    if x as int >= 32 {
      assert x >> 5 == 1;
      assert SignExtend(x, 6) == x | 0xFFC0;
      assert (x | 0xFFC0) as int == x as int + 0xFFC0;
    }
  }

  lemma SignExtendBits9(x: Word)
    requires x as int < 512
    ensures x as int < 256 ==> SignExtend(x, 9) == x
    ensures x as int >= 256 ==> SignExtend(x, 9) as int == x as int + 0xFE00
  {
    assert x >> 9 == 0;
    if x as int >= 256 {
      assert x >> 8 == 1;
      assert SignExtend(x, 9) == x | 0xFE00;
      assert (x | 0xFE00) as int == x as int + 0xFE00;
    }
  }

  lemma SignExtendBits11(x: Word)
    requires x as int < 2048
    ensures x as int < 1024 ==> SignExtend(x, 11) == x
    ensures x as int >= 1024 ==> SignExtend(x, 11) as int == x as int + 0xF800
  {
    assert x >> 11 == 0;
    if x as int >= 1024 {
      assert x >> 10 == 1;
      assert SignExtend(x, 11) == x | 0xF800;
      assert (x | 0xF800) as int == x as int + 0xF800;
    }
  }

  /** Read as a signed word, a sign-extended field has the field's
      two's-complement value. */
  lemma SignExtendValue(x: Word, n: nat)
    requires FieldWidth(n) && x as int < FieldSize(n)
    ensures Signed(SignExtend(x, n)) == FieldValue(x as int, n)
  {
    if n == 5 {
      SignExtendBits5(x);
    } else if n == 6 {
      SignExtendBits6(x);
    } else if n == 9 {
      SignExtendBits9(x);
    } else {
      SignExtendBits11(x);
    }
  }
}
