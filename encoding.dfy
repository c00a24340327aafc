/**
 * number_patch::encode (src/patchtool.cc): a signed value written as `size`
 * little-endian bytes, each as two upper-case hexadecimal digits.
 *
 * The source's `value >> 8 * i & 0xFF` works on a two's-complement integer, where
 * `>>` is an arithmetic shift. It is modelled exactly: a shift by one bit is floor
 * division by 2 (Dafny's `/` with a positive divisor floors), a shift by k bits is
 * k of them, and `& 0xFF` is `% 256`. Weights of bytes are written as left shifts,
 * k doublings, so that every definition stays linear.
 */
module NumberEncoding {

  import Seqs
  import opened Patches

  const HEX_DIGITS: string := "0123456789ABCDEF"

  /** A character of HEX_DIGITS. */
  predicate IsHexDigit(c: char)
  {
    '0' <= c <= '9' || 'A' <= c <= 'F'
  }

  /** The left shift `value << bits`, that is value times 2^bits. */
  function Shl(value: int, bits: nat): int
  {
    if bits == 0 then value else 2 * Shl(value, bits - 1)
  }

  /** The arithmetic right shift `value >> bits` of a two's-complement integer. */
  function Shr(value: int, bits: nat): int
  {
    if bits == 0 then value else Shr(value, bits - 1) / 2
  }

  /** Byte i of the value: `value >> 8 * i & 0xFF`. */
  function ByteAt(value: int, i: nat): (b: int)
    ensures 0 <= b < 256
  {
    Shr(value, 8 * i) % 256
  }

  /** One byte as the two digits `encode` pushes: `hex[byte >> 4]`, then `hex[byte & 0x0F]`. */
  function ByteHex(b: int): (s: string)
    requires 0 <= b < 256
    ensures |s| == 2
  {
    [HEX_DIGITS[b / 16], HEX_DIGITS[b % 16]]
  }

  /** The text `encode` has built after `size` iterations of its loop. */
  function LittleEndianHex(value: int, size: nat): (s: string)
    ensures |s| == 2 * size
  {
    if size == 0 then "" else LittleEndianHex(value, size - 1) + ByteHex(ByteAt(value, size - 1))
  }

  /**
   * number_patch::encode. The source shifts a 64-bit value by 8 * i; a shift by 64
   * or more is undefined behaviour in C++, so the width is limited to 8 bytes.
   */
  method Encode(value: int, size: UInt32) returns (result: string)
    requires size <= 8
    ensures result == LittleEndianHex(value, size)
  {
    result := "";
    var i := 0;
    while i < size
      invariant 0 <= i <= size
      invariant result == LittleEndianHex(value, i)
    {
      var b := Shr(value, 8 * i) % 256;
      result := result + ByteHex(b);
      i := i + 1;
    }
  }

  // ---------------------------------------------------------------------------
  // Reading the encoding back
  // ---------------------------------------------------------------------------

  /** The value of one hexadecimal digit of HEX_DIGITS. */
  function DigitValue(c: char): (d: nat)
    ensures d < 16
  {
    if '0' <= c <= '9' then c as int - '0' as int
    else if 'A' <= c <= 'F' then c as int - 'A' as int + 10
    else 0
  }

  /** The value of the byte written as the digits hi, lo. */
  function PairValue(hi: char, lo: char): (b: nat)
    ensures b < 256
  {
    16 * DigitValue(hi) + DigitValue(lo)
  }

  /** The unsigned value of the first n digit pairs of s, pair 0 the least significant. */
  function DecodePairs(s: string, n: nat): int
    requires 2 * n <= |s|
  {
    if n == 0 then 0 else DecodePairs(s, n - 1) + Shl(PairValue(s[2 * n - 2], s[2 * n - 1]), 8 * (n - 1))
  }

  /** The unsigned value of a little-endian hex string, byte 0 first. */
  function DecodeLittleEndian(s: string): int
    requires |s| % 2 == 0
  {
    DecodePairs(s, |s| / 2)
  }

  /** The two's-complement reading of a little-endian hex string. */
  function DecodeSigned(s: string): int
    requires |s| % 2 == 0
  {
    var u := DecodeLittleEndian(s);
    var p := Shl(1, 4 * |s|);
    if 2 * u >= p then u - p else u
  }

  // ---------------------------------------------------------------------------
  // Arithmetic helpers
  // ---------------------------------------------------------------------------

  lemma DigitValueOfHex(d: nat)
    requires d < 16
    ensures DigitValue(HEX_DIGITS[d]) == d
  {
  }

  lemma ByteHexValue(b: int)
    requires 0 <= b < 256
    ensures PairValue(ByteHex(b)[0], ByteHex(b)[1]) == b
  {
    DigitValueOfHex(b / 16);
    DigitValueOfHex(b % 16);
  }

  /** Shifting by a + b bits is shifting by a bits and then by b bits. */
  lemma {:induction false} ShrAdd(v: int, a: nat, b: nat)
    ensures Shr(v, a + b) == Shr(Shr(v, a), b)
  {
    if b > 0 {
      ShrAdd(v, a, b - 1);
    }
  }

  /** Eight one-bit shifts divide by 256. */
  lemma ShrEight(x: int)
    ensures Shr(x, 8) == x / 256
  {
    assert Shr(x, 1) == x / 2;
    assert Shr(x, 2) == Shr(x, 1) / 2 == x / 4;
    assert Shr(x, 3) == Shr(x, 2) / 2 == x / 8;
    assert Shr(x, 4) == Shr(x, 3) / 2 == x / 16;
    assert Shr(x, 5) == Shr(x, 4) / 2 == x / 32;
    assert Shr(x, 6) == Shr(x, 5) / 2 == x / 64;
    assert Shr(x, 7) == Shr(x, 6) / 2 == x / 128;
  }

  /** Byte i comes from the value shifted by one byte less, shifted by 8 more bits. */
  lemma ShrNextByte(v: int, i: nat)
    requires i > 0
    ensures Shr(v, 8 * i) == Shr(v, 8 * (i - 1)) / 256
  {
    ShrAdd(v, 8 * (i - 1), 8);
    ShrEight(Shr(v, 8 * (i - 1)));
  }

  /** A left shift distributes over addition. */
  lemma {:induction false} ShlAdd(a: int, b: int, k: nat)
    ensures Shl(a + b, k) == Shl(a, k) + Shl(b, k)
  {
    if k > 0 {
      ShlAdd(a, b, k - 1);
    }
  }

  /** A left shift is monotonic. */
  lemma {:induction false} ShlMono(a: int, b: int, k: nat)
    requires a <= b
    ensures Shl(a, k) <= Shl(b, k)
  {
    if k > 0 {
      ShlMono(a, b, k - 1);
    }
  }

  /** Shifting by eight more bits is multiplying by 256 first. */
  lemma {:induction false} ShlEight(x: int, k: nat)
    ensures Shl(x, k + 8) == Shl(256 * x, k)
  {
    if k > 0 {
      ShlEight(x, k - 1);
    } else {
      assert Shl(x, 8) == 2 * Shl(x, 7);
      assert Shl(x, 7) == 2 * Shl(x, 6);
      assert Shl(x, 6) == 2 * Shl(x, 5);
      assert Shl(x, 5) == 2 * Shl(x, 4);
      assert Shl(x, 4) == 2 * Shl(x, 3);
      assert Shl(x, 3) == 2 * Shl(x, 2);
      assert Shl(x, 2) == 2 * Shl(x, 1);
      assert Shl(x, 1) == 2 * x;
    }
  }

  /** A value split into its low byte b and the rest, shifted back into place. */
  lemma ShlByteSplit(x: int, high: int, b: int, i: nat)
    requires i > 0 && x == 256 * high + b
    ensures Shl(x, 8 * (i - 1)) == Shl(high, 8 * i) + Shl(b, 8 * (i - 1))
  {
    ShlAdd(256 * high, b, 8 * (i - 1));
    ShlEight(high, 8 * (i - 1));
  }

  /** The weight of a byte at position i - 1 stays below the weight of position i. */
  lemma ShlByteBound(b: int, i: nat)
    requires i > 0 && 0 <= b < 256
    ensures 0 <= Shl(b, 8 * (i - 1))
    ensures Shl(1, 8 * (i - 1)) + Shl(b, 8 * (i - 1)) <= Shl(1, 8 * i)
  {
    var k := 8 * (i - 1);
    ShlMono(b, 255, k);
    ShlMono(0, b, k);
    ShlAdd(0, 0, k);
    ShlAdd(1, 255, k);
    ShlEight(1, k);
  }

  /** The value of the low `size` bytes of value, each at its weight 2^(8 i). */
  function LowBytes(value: int, size: nat): int
  {
    if size == 0 then 0 else LowBytes(value, size - 1) + Shl(ByteAt(value, size - 1), 8 * (size - 1))
  }

  /** Digit pair i of the encoding reads back as byte i. */
  lemma PairAt(value: int, size: nat, i: nat)
    requires i < size
    ensures PairValue(LittleEndianHex(value, size)[2 * i], LittleEndianHex(value, size)[2 * i + 1]) == ByteAt(value, i)
  {
    var s := LittleEndianHex(value, size);
    LittleEndianAt(value, size, i);
    assert s[2 * i] == s[2 * i .. 2 * i + 2][0];
    assert s[2 * i + 1] == s[2 * i .. 2 * i + 2][1];
    ByteHexValue(ByteAt(value, i));
  }

  /** The first n pairs of the encoding read back as the low n bytes. */
  lemma {:induction false} DecodePairsLow(value: int, size: nat, n: nat)
    requires n <= size
    ensures DecodePairs(LittleEndianHex(value, size), n) == LowBytes(value, n)
  {
    if n > 0 {
      DecodePairsLow(value, size, n - 1);
      PairAt(value, size, n - 1);
    }
  }

  /** Reading the encoding back gives the low `size` bytes of the value. */
  lemma DecodeIsLowBytes(value: int, size: nat)
    ensures DecodeLittleEndian(LittleEndianHex(value, size)) == LowBytes(value, size)
  {
    var s := LittleEndianHex(value, size);
    assert |s| / 2 == size;
    DecodePairsLow(value, size, size);
  }

  /**
   * The low bytes and the bits that `encode` drops, `value >> 8 size` shifted back
   * into place, add up to the value, and the low bytes lie below 2^(8 size).
   */
  lemma {:induction false} LowBytesSplit(value: int, size: nat)
    ensures value == Shl(Shr(value, 8 * size), 8 * size) + LowBytes(value, size)
    ensures 0 <= LowBytes(value, size) < Shl(1, 8 * size)
  {
    if size > 0 {
      LowBytesSplit(value, size - 1);
      ShrNextByte(value, size);
      ShlByteSplit(Shr(value, 8 * (size - 1)), Shr(value, 8 * size), ByteAt(value, size - 1), size);
      ShlByteBound(ByteAt(value, size - 1), size);
    }
  }

  // ---------------------------------------------------------------------------
  // Properties of the encoding
  // ---------------------------------------------------------------------------

  /** Both digits of a byte come from HEX_DIGITS. */
  lemma ByteHexDigits(b: int)
    requires 0 <= b < 256
    ensures IsHexDigit(ByteHex(b)[0]) && IsHexDigit(ByteHex(b)[1])
  {
  }

  /** Every character of the encoding is an upper-case hexadecimal digit. */
  lemma {:induction false} EncodeDigits(value: int, size: nat)
    ensures forall k :: 0 <= k < 2 * size ==> IsHexDigit(LittleEndianHex(value, size)[k])
  {
    if size > 0 {
      EncodeDigits(value, size - 1);
      var s := LittleEndianHex(value, size - 1);
      var t := ByteHex(ByteAt(value, size - 1));
      assert LittleEndianHex(value, size) == s + t;
      ByteHexDigits(ByteAt(value, size - 1));
      forall k | 0 <= k < 2 * size
        ensures IsHexDigit((s + t)[k])
      {
        if k < |s| {
          assert (s + t)[k] == s[k];
        } else {
          assert (s + t)[k] == t[k - |s|];
        }
      }
    }
  }

  /** Characters 2i and 2i+1 are the digits of byte i: the encoding is little-endian. */
  lemma {:induction false} LittleEndianAt(value: int, size: nat, i: nat)
    requires i < size
    ensures LittleEndianHex(value, size)[2 * i .. 2 * i + 2] == ByteHex(ByteAt(value, i))
  {
    var p := LittleEndianHex(value, size - 1);
    var t := ByteHex(ByteAt(value, size - 1));
    assert LittleEndianHex(value, size) == p + t;
    if i < size - 1 {
      LittleEndianAt(value, size - 1, i);
      Seqs.SliceLeft(p, t, 2 * i, 2 * i + 2);
    } else {
      Seqs.SliceRight(p, t);
    }
  }

  /**
   * The encoding holds the low 8 size bits of the value: the value is the decoded
   * digits plus the dropped bits shifted back into place, and the decoded value
   * lies below 2^(8 size). That is, the decoded value is the value modulo 2^(8 size).
   */
  lemma DecodeEncode(value: int, size: nat)
    ensures value == Shl(Shr(value, 8 * size), 8 * size) + DecodeLittleEndian(LittleEndianHex(value, size))
    ensures 0 <= DecodeLittleEndian(LittleEndianHex(value, size)) < Shl(1, 8 * size)
  {
    DecodeIsLowBytes(value, size);
    LowBytesSplit(value, size);
  }

  /**
   * A value that fits in `size` signed bytes reads back unchanged as a
   * two's-complement number.
   */
  lemma SignedRoundTrip(value: int, size: nat)
    requires size > 0
    requires -Shl(1, 8 * size - 1) <= value < Shl(1, 8 * size - 1)
    ensures DecodeSigned(LittleEndianHex(value, size)) == value
  {
    DecodeIsLowBytes(value, size);
    SignedLowBytes(value, size);
  }

  /** The two's-complement reading of the low bytes of a value that fits in them. */
  lemma SignedLowBytes(value: int, size: nat)
    requires size > 0
    requires -Shl(1, 8 * size - 1) <= value < Shl(1, 8 * size - 1)
    ensures 2 * LowBytes(value, size) >= Shl(1, 8 * size) ==> LowBytes(value, size) - Shl(1, 8 * size) == value
    ensures 2 * LowBytes(value, size) < Shl(1, 8 * size) ==> LowBytes(value, size) == value
  {
    var k := 8 * size;
    var high := Shr(value, k);
    LowBytesSplit(value, size);
    assert Shl(1, k) == 2 * Shl(1, k - 1);
    ShlAdd(0, 0, k);
    ShlAdd(1, -1, k);
    if high >= 1 {
      ShlMono(1, high, k);
      assert false;
    } else if high <= -2 {
      ShlMono(high, -2, k);
      ShlAdd(-1, -1, k);
      assert false;
    }
  }

  lemma {:induction false} ShrZero(k: nat)
    ensures Shr(0, k) == 0
  {
    if k > 0 {
      ShrZero(k - 1);
    }
  }

  lemma {:induction false} ShrMinusOne(k: nat)
    ensures Shr(-1, k) == -1
  {
    if k > 0 {
      ShrMinusOne(k - 1);
    }
  }

  /** The digits of the smallest and the largest byte. */
  lemma ByteHexEnds()
    ensures ByteHex(0) == ['0', '0'] && ByteHex(255) == ['F', 'F']
  {
  }

  /** Zero encodes as `2 size` zero digits. */
  lemma {:induction false} EncodeZero(size: nat)
    ensures LittleEndianHex(0, size) == seq(2 * size, _ => '0')
  {
    if size > 0 {
      EncodeZero(size - 1);
      ShrZero(8 * (size - 1));
      assert ByteAt(0, size - 1) == 0;
      ByteHexEnds();
      Seqs.ConstantSnoc(2 * (size - 1), '0');
    }
  }

  /** Minus one encodes as `2 size` digits F: the shift is arithmetic and keeps the sign bits. */
  lemma {:induction false} EncodeMinusOne(size: nat)
    ensures LittleEndianHex(-1, size) == seq(2 * size, _ => 'F')
  {
    if size > 0 {
      EncodeMinusOne(size - 1);
      ShrMinusOne(8 * (size - 1));
      assert ByteAt(-1, size - 1) == 255;
      ByteHexEnds();
      Seqs.ConstantSnoc(2 * (size - 1), 'F');
    }
  }

  /** The worked example: 0x1234 in two bytes is "3412". */
  lemma EncodeExample()
    ensures LittleEndianHex(0x1234, 2) == "3412"
  {
    ShrEight(0x1234);
    assert ByteAt(0x1234, 0) == 0x34;
    assert ByteAt(0x1234, 1) == 0x12;
  }
}
