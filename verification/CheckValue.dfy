/** The check value of CRC32C: the checksum of the nine digits. It fixes what
    linearity leaves open, the start value, the final complement and the order
    of bits. */
module CheckValue {
  import opened Crc32c
  import opened Crid

  /** Bit i of a machine word. */
  predicate At(x: bv32, i: nat) {
    if i == 0 then x & 1 != 0 else At(x >> 1, i - 1)
  }

  /** A machine word as the register holds it. */
  function Bits(x: bv32): (w: seq<bool>)
    ensures |w| == 32
  {
    seq(32, i requires 0 <= i < 32 => At(x, i))
  }

  lemma XorMovesDown(x: bv32, y: bv32)
    ensures (x ^ y) >> 1 == (x >> 1) ^ (y >> 1)
  {
  }

  lemma LowBitOfXor(x: bv32, y: bv32)
    ensures At(x ^ y, 0) <==> At(x, 0) != At(y, 0)
  {
  }

  lemma AtLater(x: bv32, half: bv32, i: nat)
    requires i > 0 && half == x >> 1
    ensures At(x, i) == At(half, i - 1)
  {
  }

  lemma {:induction false} AtXor(x: bv32, y: bv32, z: bv32, i: nat)
    requires z == x ^ y
    ensures At(z, i) <==> At(x, i) != At(y, i)
    decreases i
  {
    hide At;
    if i == 0 {
      LowBitOfXor(x, y);
    } else {
      XorMovesDown(x, y);
      AtXor(x >> 1, y >> 1, z >> 1, i - 1);
      AtLater(x, x >> 1, i);
      AtLater(y, y >> 1, i);
      AtLater(z, z >> 1, i);
    }
  }

  lemma XorOfBits(x: bv32, y: bv32)
    ensures Bits(x ^ y) == Xor(Bits(x), Bits(y))
  {
    hide At;
    forall i | 0 <= i < 32
      ensures Bits(x ^ y)[i] == Xor(Bits(x), Bits(y))[i]
    {
      AtXor(x, y, x ^ y, i);
    }
  }

  lemma EightTimesOne(x: bv32)
    ensures x >> 1 >> 1 >> 1 >> 1 >> 1 >> 1 >> 1 >> 1 == x >> 8
  {
  }

  lemma EightPlaces(x: bv32, y: bv32, i: nat)
    requires y == x >> 8
    ensures At(x, i + 8) == At(y, i)
  {
    hide At;
    var x1 := x >> 1;
    var x2 := x1 >> 1;
    var x3 := x2 >> 1;
    var x4 := x3 >> 1;
    var x5 := x4 >> 1;
    var x6 := x5 >> 1;
    var x7 := x6 >> 1;
    EightTimesOne(x);
    AtLater(x, x1, i + 8);
    AtLater(x1, x2, i + 7);
    AtLater(x2, x3, i + 6);
    AtLater(x3, x4, i + 5);
    AtLater(x4, x5, i + 4);
    AtLater(x5, x6, i + 3);
    AtLater(x6, x7, i + 2);
    AtLater(x7, y, i + 1);
  }

  lemma NothingAbove(x: bv32)
    ensures !At(x, 32)
  {
    hide At;
    var x1 := x >> 8;
    var x2 := x1 >> 8;
    var x3 := x2 >> 8;
    var x4 := x3 >> 8;
    EightPlaces(x, x1, 24);
    EightPlaces(x1, x2, 16);
    EightPlaces(x2, x3, 8);
    EightPlaces(x3, x4, 0);
    ZeroAt(x4);
  }

  lemma ZeroAt(x: bv32)
    requires x == 0
    ensures !At(x, 0)
  {
  }

  lemma HalfAt(x: bv32, i: nat)
    ensures At(x >> 1, i) == At(x, i + 1)
    ensures At(x, 0) == (x & 1 != 0)
  {
  }

  lemma HalfOfBits(x: bv32)
    ensures Bits(x >> 1) == HalfShift(Bits(x))
  {
    hide At;
    NothingAbove(x);
    forall i | 0 <= i < 32
      ensures Bits(x >> 1)[i] == HalfShift(Bits(x))[i]
    {
      HalfAt(x, i);
    }
  }

  function ShiftWord(x: bv32): bv32 {
    if x & 1 != 0 then (x >> 1) ^ 0x82F63B78 else x >> 1
  }

  lemma ShiftOfBits(x: bv32)
    ensures Shift(Bits(x)) == Bits(ShiftWord(x))
  {
    assert Bits(x)[0] == (x & 1 != 0);
    hide At, Bits, Xor, HalfShift;
    PolynomialAsWord();
    HalfOfBits(x);
    XorOfBits(x >> 1, 0x82F63B78);
  }

  function Octet8(x: bv32): (bits: seq<bool>)
    ensures |bits| == 8
  {
    [x & 1 != 0, x & 2 != 0, x & 4 != 0, x & 8 != 0, x & 16 != 0, x & 32 != 0, x & 64 != 0, x & 128 != 0]
  }

  lemma FlagsBelow(x: bv32, h: bv32)
    requires h == x >> 1
    ensures (h & 1 != 0) == (x & 2 != 0) && (h & 2 != 0) == (x & 4 != 0) && (h & 4 != 0) == (x & 8 != 0)
    ensures (h & 8 != 0) == (x & 16 != 0) && (h & 16 != 0) == (x & 32 != 0)
    ensures (h & 32 != 0) == (x & 64 != 0) && (h & 64 != 0) == (x & 128 != 0)
  {
  }

  /** The first n places against their flags. */
  predicate FlagsUpTo(x: bv32, n: nat) {
    && (n > 0 ==> At(x, 0) == (x & 1 != 0)) && (n > 1 ==> At(x, 1) == (x & 2 != 0))
    && (n > 2 ==> At(x, 2) == (x & 4 != 0)) && (n > 3 ==> At(x, 3) == (x & 8 != 0))
    && (n > 4 ==> At(x, 4) == (x & 16 != 0)) && (n > 5 ==> At(x, 5) == (x & 32 != 0))
    && (n > 6 ==> At(x, 6) == (x & 64 != 0)) && (n > 7 ==> At(x, 7) == (x & 128 != 0))
  }

  lemma LowFlag(x: bv32)
    ensures At(x, 0) == (x & 1 != 0)
  {
  }

  lemma {:induction false} FlagsAreAt(x: bv32, n: nat)
    requires n <= 8
    ensures FlagsUpTo(x, n)
    decreases n
  {
    hide At;
    if n > 0 {
      var half := x >> 1;
      FlagsAreAt(half, n - 1);
      FlagsBelow(x, half);
      LowFlag(x);
      if n > 1 { AtLater(x, half, 1); }
      if n > 2 { AtLater(x, half, 2); }
      if n > 3 { AtLater(x, half, 3); }
      if n > 4 { AtLater(x, half, 4); }
      if n > 5 { AtLater(x, half, 5); }
      if n > 6 { AtLater(x, half, 6); }
      if n > 7 { AtLater(x, half, 7); }
    }
  }

  lemma LowOctet(x: bv32)
    ensures forall i | 0 <= i < 8 :: At(x, i) == Octet8(x)[i]
  {
    hide At;
    FlagsAreAt(x, 8);
  }

  /** A word written out, octet by octet. */
  lemma InOctets(x: bv32, x1: bv32, x2: bv32, x3: bv32)
    requires x1 == x >> 8 && x2 == x1 >> 8 && x3 == x2 >> 8
    ensures Bits(x) == Octet8(x) + (Octet8(x1) + (Octet8(x2) + Octet8(x3)))
  {
    hide At;
    LowOctet(x);
    LowOctet(x1);
    LowOctet(x2);
    LowOctet(x3);
    hide Octet8;
    var w := Octet8(x) + (Octet8(x1) + (Octet8(x2) + Octet8(x3)));
    forall i | 0 <= i < 32
      ensures Bits(x)[i] == w[i]
    {
      if i >= 8 {
        EightPlaces(x, x1, i - 8);
      }
      if i >= 16 {
        EightPlaces(x1, x2, i - 16);
      }
      if i >= 24 {
        EightPlaces(x2, x3, i - 24);
      }
    }
  }

  lemma PolynomialAsWord()
    ensures Bits(0x82F63B78) == POLYNOMIAL
  {
    InOctets(0x82F63B78, 0x82F63B, 0x82F6, 0x82);
    hide Bits;
    var o1 := [false, false, false, true, true, true, true, false];
    var o2 := [true, true, false, true, true, true, false, false];
    var o3 := [false, true, true, false, true, true, true, true];
    var o4 := [false, true, false, false, false, false, false, true];
    assert Octet8(0x82F63B78) == o1;
    assert Octet8(0x82F63B) == o2;
    assert Octet8(0x82F6) == o3;
    assert Octet8(0x82) == o4;
    assert POLYNOMIAL == o1 + (o2 + (o3 + o4));
    assert Bits(0x82F63B78) == o1 + (o2 + (o3 + o4));
  }

  function ShiftWords(x: bv32): bv32 {
    ShiftWord(ShiftWord(ShiftWord(ShiftWord(ShiftWord(ShiftWord(ShiftWord(ShiftWord(x))))))))
  }

  lemma Chain()
    ensures ShiftWords(0xFFFF_FFFF ^ 0x31) == 0x6F0A661C
    ensures ShiftWords(0x6F0A661C ^ 0x32) == 0x8CAA3B9F
    ensures ShiftWords(0x8CAA3B9F ^ 0x33) == 0xEF84D04D
    ensures ShiftWords(0xEF84D04D ^ 0x34) == 0x09C50B11
    ensures ShiftWords(0x09C50B11 ^ 0x35) == 0xE72EDCCA
    ensures ShiftWords(0xE72EDCCA ^ 0x36) == 0xBECA8E79
    ensures ShiftWords(0xBECA8E79 ^ 0x37) == 0xEDBD6815
    ensures ShiftWords(0xEDBD6815 ^ 0x38) == 0x9F787F65
    ensures ShiftWords(0x9F787F65 ^ 0x39) == 0x1CF96D7C
  {
  }

  lemma EightShifts(x: bv32)
    ensures ShiftN(Bits(x), 8) == Bits(ShiftWords(x))
  {
    hide Bits, Shift, ShiftWord;
    var x1 := ShiftWord(x);
    var x2 := ShiftWord(x1);
    var x3 := ShiftWord(x2);
    var x4 := ShiftWord(x3);
    var x5 := ShiftWord(x4);
    var x6 := ShiftWord(x5);
    var x7 := ShiftWord(x6);
    ShiftOfBits(x);
    ShiftOfBits(x1);
    ShiftOfBits(x2);
    ShiftOfBits(x3);
    ShiftOfBits(x4);
    ShiftOfBits(x5);
    ShiftOfBits(x6);
    ShiftOfBits(x7);
    assert ShiftN(Bits(x), 8) == ShiftN(Bits(x1), 7) == ShiftN(Bits(x2), 6) == ShiftN(Bits(x3), 5);
    assert ShiftN(Bits(x3), 5) == ShiftN(Bits(x4), 4) == ShiftN(Bits(x5), 3) == ShiftN(Bits(x6), 2);
  }

  /** The bytes of the nine digits. */
  function Digit(d: nat): Byte
    requires d < 10
  {
    Octet(0x30 + d)
  }

  lemma DigitBits(d: nat)
    requires d < 10
    ensures var b := Digit(d);
            && !b[0] && !b[1] && b[2] && b[3] && b[4] == (d / 8 % 2 == 1) && b[5] == (d / 4 % 2 == 1)
            && b[6] == (d / 2 % 2 == 1) && b[7] == (d % 2 == 1)
  {
    var n := 0x30 + d;
    assert n / 128 == 0 && n / 64 == 0 && n / 32 == 1 && n / 16 == 3;
    assert n / 8 == 6 + d / 8 && n / 4 == 12 + d / 4 && n / 2 == 24 + d / 2;
  }

  lemma SmallWord(x: bv32)
    requires x & 0xFFFF_FFF0 == 0x30
    ensures x >> 8 == 0 && !(x & 128 != 0) && !(x & 64 != 0) && x & 32 != 0 && x & 16 != 0
  {
  }

  lemma WidenAt(b: Byte, low: seq<bool>)
    requires |low| == 8 && forall i | 0 <= i < 8 :: low[i] == b[7 - i]
    ensures Widen(b) == low + (Repeat(false, 8) + (Repeat(false, 8) + Repeat(false, 8)))
  {
  }

  lemma DigitAsWord(d: nat, x: bv32)
    requires d < 10 && x & 0xFFFF_FFF0 == 0x30
    requires (x & 8 != 0) == (d / 8 % 2 == 1) && (x & 4 != 0) == (d / 4 % 2 == 1)
    requires (x & 2 != 0) == (d / 2 % 2 == 1) && (x & 1 != 0) == (d % 2 == 1)
    ensures Widen(Digit(d)) == Bits(x)
  {
    hide Digit, Widen, Bits;
    DigitBits(d);
    SmallWord(x);
    InOctets(x, 0, 0, 0);
    assert Octet8(0) == Repeat(false, 8);
    assert forall i | 0 <= i < 8 :: Octet8(x)[i] == Digit(d)[7 - i];
    WidenAt(Digit(d), Octet8(x));
  }

  lemma AbsorbDigit(x: bv32, d: nat, y: bv32, z: bv32)
    requires d < 10 && Widen(Digit(d)) == Bits(y) && ShiftWords(x ^ y) == z
    ensures Absorb(Bits(x), Digit(d)) == Bits(z)
  {
    hide Bits, ShiftN, Digit, ShiftWords;
    XorOfBits(x, y);
    EightShifts(x ^ y);
  }

  lemma OnesAsWord()
    ensures Bits(0xFFFF_FFFF) == ONES
  {
    InOctets(0xFFFF_FFFF, 0xFF_FFFF, 0xFFFF, 0xFF);
    hide Bits;
    assert Octet8(0xFFFF_FFFF) == Octet8(0xFF_FFFF) == Octet8(0xFFFF) == Octet8(0xFF) == Repeat(true, 8);
  }

  lemma ResultAsNumber()
    ensures Value(Bits(0xE306_9283)) == 0xE306_9283
  {
    InOctets(0xE306_9283, 0xE3_0692, 0xE306, 0xE3);
    hide Bits, Value;
    NothingIsZero();
    var d := [true, true, false, false, false, true, true, true];
    var c := [false, true, true, false, false, false, false, false] + d;
    var b := [false, true, false, false, true, false, false, true] + c;
    OctetValue(true, true, false, false, false, true, true, true, []);
    assert d + [] == d;
    OctetValue(false, true, true, false, false, false, false, false, d);
    OctetValue(false, true, false, false, true, false, false, true, c);
    OctetValue(true, true, false, false, false, false, false, true, b);
    assert Octet8(0xE306_9283) == [true, true, false, false, false, false, false, true];
    assert Octet8(0xE3_0692) == [false, true, false, false, true, false, false, true];
    assert Octet8(0xE306) == [false, true, true, false, false, false, false, false];
    assert Octet8(0xE3) == d;
  }

  /** One digit of the text, one byte of the register. */
  lemma DigitStep(x: bv32, d: nat, y: bv32, z: bv32, rest: string, c: char)
    requires d < 10 && c as nat == 0x30 + d
    requires y & 0xFFFF_FFF0 == 0x30
    requires (y & 8 != 0) == (d / 8 % 2 == 1) && (y & 4 != 0) == (d / 4 % 2 == 1)
    requires (y & 2 != 0) == (d / 2 % 2 == 1) && (y & 1 != 0) == (d % 2 == 1)
    requires ShiftWords(x ^ y) == z
    ensures Register(Bits(x), Ascii([c] + rest)) == Register(Bits(z), Ascii(rest))
  {
    hide Bits, ShiftWords, Register, Absorb, Octet;
    assert ([c] + rest)[1..] == rest;
    assert Octet(c as nat % 256) == Digit(d);
    DigitAsWord(d, y);
    AbsorbDigit(x, d, y, z);
    hide Digit;
    RegisterCons(Bits(x), Digit(d), Ascii(rest));
  }

  lemma RegisterOfDigits()
    ensures Register(ONES, Ascii("123456789")) == Bits(0x1CF9_6D7C)
  {
    Chain();
    OnesAsWord();
    hide Bits, ShiftWords, Register;
    DigitStep(0xFFFF_FFFF, 1, 0x31, 0x6F0A661C, "23456789", '1');
    DigitStep(0x6F0A661C, 2, 0x32, 0x8CAA3B9F, "3456789", '2');
    DigitStep(0x8CAA3B9F, 3, 0x33, 0xEF84D04D, "456789", '3');
    DigitStep(0xEF84D04D, 4, 0x34, 0x09C50B11, "56789", '4');
    DigitStep(0x09C50B11, 5, 0x35, 0xE72EDCCA, "6789", '5');
    DigitStep(0xE72EDCCA, 6, 0x36, 0xBECA8E79, "789", '6');
    DigitStep(0xBECA8E79, 7, 0x37, 0xEDBD6815, "89", '7');
    DigitStep(0xEDBD6815, 8, 0x38, 0x9F787F65, "9", '8');
    DigitStep(0x9F787F65, 9, 0x39, 0x1CF96D7C, "", '9');
    Spelt();
    RegisterOfNone(Bits(0x1CF9_6D7C));
  }

  lemma Spelt()
    ensures "123456789" == ['1'] + "23456789" && "23456789" == ['2'] + "3456789" && "3456789" == ['3'] + "456789"
    ensures "456789" == ['4'] + "56789" && "56789" == ['5'] + "6789" && "6789" == ['6'] + "789"
    ensures "789" == ['7'] + "89" && "89" == ['8'] + "9" && "9" == ['9'] + ""
  {
  }

  /** The check value every implementation of CRC32C gives, and the checksum of
      nothing. */
  lemma CheckValues()
    ensures Value(Checksum(Ascii("123456789"))) == 0xE306_9283
    ensures Checksum([]) == ZERO
  {
    RegisterOfDigits();
    OnesAsWord();
    hide Bits, Register, Ascii;
    XorOfBits(0x1CF9_6D7C, 0xFFFF_FFFF);
    ResultAsNumber();
    RegisterOfNone(ONES);
  }
}
