/** CRC32C as the reflected register computes it (Appendix A of RFC 9260), and
    why it sees every error burst of up to four bytes. */
module Crc32c {
  /** Eight bits, most significant first. */
  type Byte = b: seq<bool> | |b| == 8 witness [false, false, false, false, false, false, false, false]

  /** A 32-bit register, least significant bit first. */
  type Word = w: seq<bool> | |w| == 32 witness Repeat(false, 32)

  const ZERO_BYTE: Byte := Repeat(false, 8)
  const ZERO: Word := Repeat(false, 32)
  const ONES: Word := Repeat(true, 32)

  /** 0x82F63B78, the bit-reversed Castagnoli polynomial. */
  const POLYNOMIAL: Word :=
    [false, false, false, true, true, true, true, false] + ([true, true, false, true, true, true, false, false] +
    ([false, true, true, false, true, true, true, true] + [false, true, false, false, false, false, false, true]))

  /** A number read with its least significant bit first. */
  function Value(bits: seq<bool>): (n: nat) {
    if bits == [] then 0 else Bit(bits[0]) + 2 * Value(bits[1..])
  }

  lemma PairValue(b0: bool, b1: bool, rest: seq<bool>)
    ensures Value([b0, b1] + rest) == Bit(b0) + 2 * Bit(b1) + 4 * Value(rest)
  {
    var s := [b0, b1] + rest;
    assert s[1..] == [b1] + rest && s[1..][1..] == rest;
  }

  lemma OctetValue(b0: bool, b1: bool, b2: bool, b3: bool, b4: bool, b5: bool, b6: bool, b7: bool, rest: seq<bool>)
    ensures Value([b0, b1, b2, b3, b4, b5, b6, b7] + rest) ==
            Bit(b0) + 2 * Bit(b1) + 4 * Bit(b2) + 8 * Bit(b3) + 16 * Bit(b4) + 32 * Bit(b5) + 64 * Bit(b6)
            + 128 * Bit(b7) + 256 * Value(rest)
  {
    hide Value;
    var s6 := [b6, b7] + rest;
    var s4 := [b4, b5] + s6;
    var s2 := [b2, b3] + s4;
    PairValue(b6, b7, rest);
    PairValue(b4, b5, s6);
    PairValue(b2, b3, s4);
    PairValue(b0, b1, s2);
    assert [b0, b1, b2, b3, b4, b5, b6, b7] + rest == [b0, b1] + s2;
  }

  function Bit(b: bool): nat {
    if b then 1 else 0
  }

  lemma NothingIsZero()
    ensures Value([]) == 0
  {
  }

  /** The generator is the Castagnoli polynomial in its reflected form. */
  lemma PolynomialIsCastagnoli()
    ensures Value(POLYNOMIAL) == 0x82F63B78
  {
    hide Value;
    NothingIsZero();
    var d := [false, true, false, false, false, false, false, true];
    OctetValue(false, true, false, false, false, false, false, true, []);
    assert d + [] == d;
    var c := [false, true, true, false, true, true, true, true] + d;
    OctetValue(false, true, true, false, true, true, true, true, d);
    var b := [true, true, false, true, true, true, false, false] + c;
    OctetValue(true, true, false, true, true, true, false, false, c);
    OctetValue(false, false, false, true, true, true, true, false, b);
  }

  function Repeat(bit: bool, n: nat): (z: seq<bool>)
    ensures |z| == n
  {
    seq(n, i requires 0 <= i < n => bit)
  }

  function Xor(x: seq<bool>, y: seq<bool>): (z: seq<bool>)
    requires |x| == |y|
    ensures |z| == |x|
  {
    seq(|x|, i requires 0 <= i < |x| => x[i] != y[i])
  }

  function HalfShift(c: Word): (z: seq<bool>)
    ensures |z| == 32
  {
    seq(32, i requires 0 <= i < 32 => i < 31 && c[i + 1])
  }

  function Shift(c: Word): Word {
    if c[0] then Xor(HalfShift(c), POLYNOMIAL) else HalfShift(c)
  }

  function ShiftN(c: Word, n: nat): Word
    decreases n
  {
    if n == 0 then c else ShiftN(Shift(c), n - 1)
  }

  /** A byte at the low end of the register. */
  function Widen(b: Byte): (z: seq<bool>)
    ensures |z| == 32
  {
    seq(32, i requires 0 <= i < 32 => i < 8 && b[7 - i])
  }

  function Absorb(c: Word, b: Byte): Word {
    ShiftN(Xor(c, Widen(b)), |b|)
  }

  function Register(c: Word, data: seq<Byte>): Word
    decreases data
  {
    if data == [] then c else Register(Absorb(c, data[0]), data[1..])
  }

  function Checksum(data: seq<Byte>): Word {
    Xor(Register(ONES, data), ONES)
  }

  // --- The register is linear and loses nothing -------------------------------

  lemma XorZero(x: Word, y: Word)
    ensures Xor(x, y) == ZERO <==> x == y
    ensures Xor(x, ZERO) == x
  {
    if Xor(x, y) == ZERO {
      assert forall i | 0 <= i < 32 :: Xor(x, y)[i] == (x[i] != y[i]);
      assert x == y;
    }
  }

  lemma ShiftIsLinear(x: Word, y: Word)
    ensures Shift(Xor(x, y)) == Xor(Shift(x), Shift(y))
  {
    var l, r := Shift(Xor(x, y)), Xor(Shift(x), Shift(y));
    forall i | 0 <= i < 32
      ensures l[i] == r[i]
    {
    }
  }

  lemma NothingSet(x: Word)
    ensures (forall i | 0 <= i < 32 :: !x[i]) <==> x == ZERO
  {
  }

  lemma ShiftKeepsNonzero(x: Word)
    requires x != ZERO
    ensures Shift(x) != ZERO
  {
    NothingSet(x);
    var i :| 0 <= i < 32 && x[i];
    if x[0] {
      assert Shift(x)[31] == (HalfShift(x)[31] != POLYNOMIAL[31]);
    } else {
      assert Shift(x)[i - 1] == x[i];
    }
  }

  lemma {:induction false} ShiftNIsLinear(x: Word, y: Word, n: nat)
    ensures ShiftN(Xor(x, y), n) == Xor(ShiftN(x, n), ShiftN(y, n))
    decreases n
  {
    hide Shift, Xor, Repeat;
    if n > 0 {
      ShiftIsLinear(x, y);
      ShiftNIsLinear(Shift(x), Shift(y), n - 1);
    }
  }

  lemma {:induction false} ShiftNKeepsNonzero(x: Word, n: nat)
    requires x != ZERO
    ensures ShiftN(x, n) != ZERO
    decreases n
  {
    hide Shift, Xor, Repeat;
    if n > 0 {
      ShiftKeepsNonzero(x);
      ShiftNKeepsNonzero(Shift(x), n - 1);
    }
  }

  lemma {:induction false} ShiftNOfZero(n: nat)
    ensures ShiftN(ZERO, n) == ZERO
  {
    if n > 0 {
      assert Shift(ZERO) == ZERO;
      ShiftNOfZero(n - 1);
    }
  }

  lemma ShiftNIsInjective(x: Word, y: Word, n: nat)
    requires ShiftN(x, n) == ShiftN(y, n)
    ensures x == y
  {
    ShiftNIsLinear(x, y, n);
    XorZero(ShiftN(x, n), ShiftN(y, n));
    XorZero(x, y);
    if Xor(x, y) != ZERO {
      ShiftNKeepsNonzero(Xor(x, y), n);
    }
  }

  /** Moved up by n places, the top n bits lost. */
  function Raise(x: Word, n: nat): (z: Word)
    requires n <= 32
    ensures forall i | 0 <= i < 32 :: z[i] == (i >= n && x[i - n])
  {
    Repeat(false, n) + x[..32 - n]
  }

  /** Bits that only move down come out where they were. */
  lemma {:induction false} ShiftsUndoRaise(x: Word, n: nat)
    requires n <= 32 && forall i | 32 - n <= i < 32 :: !x[i]
    ensures ShiftN(Raise(x, n), n) == x
    decreases n
  {
    if n == 0 {
      assert Raise(x, 0) == x;
    } else {
      var y := Raise(x, n);
      assert !y[0];
      assert HalfShift(y) == Raise(x, n - 1);
      ShiftsUndoRaise(x, n - 1);
    }
  }

  /** One byte of the table algorithm: the low byte selects a table entry, the
      rest of the register moves down by a byte. */
  lemma TableStep(c: Word, b: Byte)
    ensures var low: Word := Xor(c, Widen(b))[..8] + Repeat(false, 24);
            var rest: Word := c[8..] + Repeat(false, 8);
            Absorb(c, b) == Xor(ShiftN(low, 8), rest)
  {
    hide ShiftN;
    var x := Xor(c, Widen(b));
    var low: Word := x[..8] + Repeat(false, 24);
    var rest: Word := c[8..] + Repeat(false, 8);
    assert x == Xor(low, Raise(rest, 8));
    ShiftNIsLinear(low, Raise(rest, 8), 8);
    ShiftsUndoRaise(rest, 8);
  }

  // --- Differences ------------------------------------------------------------

  function Difference(a: seq<Byte>, b: seq<Byte>): (d: seq<Byte>)
    requires |a| == |b|
    ensures |d| == |a| && forall i | 0 <= i < |a| :: d[i] == Xor(a[i], b[i])
    decreases |a|
  {
    if a == [] then [] else [Xor(a[0], b[0])] + Difference(a[1..], b[1..])
  }

  lemma XorByteZero(x: Byte, y: Byte)
    ensures Xor(x, y) == ZERO_BYTE <==> x == y
  {
    if Xor(x, y) == ZERO_BYTE {
      assert forall i | 0 <= i < 8 :: Xor(x, y)[i] == (x[i] != y[i]);
      assert x == y;
    }
  }

  lemma AbsorbDifference(c: Word, e: Word, a: Byte, b: Byte)
    ensures Xor(Absorb(c, a), Absorb(e, b)) == Absorb(Xor(c, e), Xor(a, b))
  {
    hide ShiftN;
    var x, y := Xor(c, Widen(a)), Xor(e, Widen(b));
    var d: Byte := Xor(a, b);
    assert Xor(x, y) == Xor(Xor(c, e), Widen(d));
    ShiftNIsLinear(x, y, 8);
  }

  lemma {:induction false} RegisterDifference(c: Word, e: Word, a: seq<Byte>, b: seq<Byte>)
    requires |a| == |b|
    ensures Xor(Register(c, a), Register(e, b)) == Register(Xor(c, e), Difference(a, b))
    decreases |a|
  {
    hide Absorb;
    if a != [] {
      AbsorbDifference(c, e, a[0], b[0]);
      RegisterDifference(Absorb(c, a[0]), Absorb(e, b[0]), a[1..], b[1..]);
      assert Difference(a, b)[1..] == Difference(a[1..], b[1..]);
    }
  }

  lemma ChecksumDifference(a: seq<Byte>, b: seq<Byte>)
    requires |a| == |b|
    ensures Xor(Checksum(a), Checksum(b)) == Register(ZERO, Difference(a, b))
  {
    hide Register;
    RegisterDifference(ONES, ONES, a, b);
    assert Xor(ONES, ONES) == ZERO;
    assert Xor(Checksum(a), Checksum(b)) == Xor(Register(ONES, a), Register(ONES, b));
  }

  lemma {:induction false} RegisterAppend(c: Word, a: seq<Byte>, b: seq<Byte>)
    ensures Register(c, a + b) == Register(Register(c, a), b)
    decreases |a|
  {
    if a == [] {
      assert a + b == b;
    } else {
      assert (a + b)[1..] == a[1..] + b;
      RegisterAppend(Absorb(c, a[0]), a[1..], b);
    }
  }

  predicate Quiet(z: seq<Byte>) {
    forall i | 0 <= i < |z| :: z[i] == ZERO_BYTE
  }

  lemma QuietByte(c: Word)
    ensures Absorb(c, ZERO_BYTE) == ShiftN(c, 8)
  {
    hide ShiftN;
    assert Widen(ZERO_BYTE) == ZERO;
    XorZero(c, c);
  }

  lemma {:induction false} QuietRegister(c: Word, z: seq<Byte>)
    requires Quiet(z)
    ensures Register(c, z) == ZERO <==> c == ZERO
    decreases |z|
  {
    hide ShiftN;
    if z != [] {
      QuietByte(c);
      ShiftNOfZero(8);
      if c != ZERO {
        ShiftNKeepsNonzero(c, 8);
      }
      QuietRegister(ShiftN(c, 8), z[1..]);
    }
  }

  /** What the register held before a byte that left it with `after`. */
  lemma StepBack(before: Word, b: Byte, after: Word)
    requires Absorb(before, b) == after && forall i | 24 <= i < 32 :: !after[i]
    ensures before == Xor(Widen(b), Raise(after, 8))
  {
    hide ShiftN, Raise;
    ShiftsUndoRaise(after, 8);
    ShiftNIsInjective(Xor(before, Widen(b)), Raise(after, 8), 8);
    Unmask(before, Widen(b), Raise(after, 8));
  }

  lemma Unmask(x: Word, mask: Word, y: Word)
    requires Xor(x, mask) == y
    ensures x == Xor(mask, y)
  {
    assert forall i | 0 <= i < 32 :: y[i] == (x[i] != mask[i]);
  }

  lemma RegisterCons(c: Word, b: Byte, rest: seq<Byte>)
    ensures Register(c, [b] + rest) == Register(Absorb(c, b), rest)
  {
    hide Absorb;
    assert ([b] + rest)[1..] == rest;
  }

  lemma RegisterOfNone(c: Word)
    ensures Register(c, []) == c
  {
  }

  lemma RegisterOfFour(c: Word, b0: Byte, b1: Byte, b2: Byte, b3: Byte)
    ensures Register(c, [b0, b1, b2, b3]) == Absorb(Absorb(Absorb(Absorb(c, b0), b1), b2), b3)
  {
    hide Register, Absorb;
    var c1 := Absorb(c, b0);
    var c2 := Absorb(c1, b1);
    RegisterCons(c, b0, [b1, b2, b3]);
    RegisterCons(c1, b1, [b2, b3]);
    RegisterCons(c2, b2, [b3]);
    RegisterCons(Absorb(c2, b2), b3, []);
    assert [b0] + [b1, b2, b3] == [b0, b1, b2, b3] && [b1] + [b2, b3] == [b1, b2, b3];
    assert [b2] + [b3] == [b2, b3] && [b3] + [] == [b3];
    RegisterOfNone(Absorb(Absorb(c2, b2), b3));
  }

  /** Read backwards, an empty register needs four empty bytes. */
  lemma FourBytesCannotCancel(b0: Byte, b1: Byte, b2: Byte, b3: Byte)
    requires Register(ZERO, [b0, b1, b2, b3]) == ZERO
    ensures b0 == b1 == b2 == b3 == ZERO_BYTE
  {
    hide ShiftN;
    var s1 := Absorb(ZERO, b0);
    var s2 := Absorb(s1, b1);
    var s3 := Absorb(s2, b2);
    RegisterOfFour(ZERO, b0, b1, b2, b3);
    StepBack(s3, b3, ZERO);
    StepBack(s2, b2, s3);
    StepBack(s1, b1, s2);
    StepBack(ZERO, b0, s1);
    forall i | 0 <= i < 32
      ensures !s1[i]
    {
      assert i < 24 ==> !Xor(Widen(b0), Raise(s1, 8))[i + 8];
    }
    Emptied(b0, s1);
    Emptied(b1, s2);
    Emptied(b2, s3);
    Emptied(b3, ZERO);
  }

  lemma Emptied(b: Byte, after: Word)
    requires Xor(Widen(b), Raise(after, 8)) == ZERO && forall i | 24 <= i < 32 :: !after[i]
    ensures b == ZERO_BYTE && after == ZERO
  {
    var x := Xor(Widen(b), Raise(after, 8));
    forall i | 0 <= i < 8
      ensures !b[i]
    {
      assert x[7 - i] == b[i];
    }
    forall i | 0 <= i < 24
      ensures !after[i]
    {
      assert x[i + 8] == after[i];
    }
  }

  /** The register comes back to zero only when nothing disturbed it. */
  lemma BurstMoves(d: seq<Byte>, i: nat)
    requires i + 4 <= |d| && forall k | 0 <= k < |d| && !(i <= k < i + 4) :: d[k] == ZERO_BYTE
    requires Register(ZERO, d) == ZERO
    ensures Quiet(d)
  {
    hide Register;
    var w := d[i..i + 4];
    assert d == d[..i] + (w + d[i + 4..]);
    RegisterAppend(ZERO, d[..i], w + d[i + 4..]);
    QuietRegister(ZERO, d[..i]);
    RegisterAppend(ZERO, w, d[i + 4..]);
    QuietRegister(Register(ZERO, w), d[i + 4..]);
    assert w == [d[i], d[i + 1], d[i + 2], d[i + 3]];
    FourBytesCannotCancel(d[i], d[i + 1], d[i + 2], d[i + 3]);
  }

  /** Any change confined to four consecutive bytes changes the checksum. */
  lemma BurstIsSeen(a: seq<Byte>, b: seq<Byte>, i: nat)
    requires |a| == |b| && a != b && i + 4 <= |a|
    requires forall k | 0 <= k < |a| && !(i <= k < i + 4) :: a[k] == b[k]
    ensures Checksum(a) != Checksum(b)
  {
    hide Register, Checksum, Difference;
    var d := Difference(a, b);
    forall k | 0 <= k < |a|
      ensures d[k] == ZERO_BYTE <==> a[k] == b[k]
    {
      XorByteZero(a[k], b[k]);
    }
    if Checksum(a) == Checksum(b) {
      ChecksumDifference(a, b);
      XorZero(Checksum(a), Checksum(b));
      BurstMoves(d, i);
    }
  }

  // --- A change that straddles payload and checksum ----------------------------

  /** The top bit of the checksum, which is the first one spelled out. */
  const TOP: Word := Repeat(false, 31) + [true]

  /** One step of the register, undone. */
  function Back(z: Word): (y: Word)
    ensures y[0] == z[31] && forall i | 0 < i < 32 :: y[i] == (z[i - 1] != (z[31] && POLYNOMIAL[i - 1]))
  {
    if z[31] then [true] + Xor(z, POLYNOMIAL)[..31] else [false] + z[..31]
  }

  lemma ShiftUndoesBack(z: Word)
    ensures Shift(Back(z)) == z
  {
    hide Back;
    var y := Back(z);
    forall i | 0 <= i < 32
      ensures Shift(y)[i] == z[i]
    {
      if i < 31 {
        assert HalfShift(y)[i] == y[i + 1];
      }
    }
  }

  /** Eight steps before the register held only its top bit, bit 5 was set. */
  lemma EightBack() returns (w: Word)
    ensures ShiftN(w, 8) == TOP && w[5]
  {
    hide Shift, Back;
    var w1 := Back(TOP);
    var w2 := Back(w1);
    var w3 := Back(w2);
    var w4 := Back(w3);
    var w5 := Back(w4);
    var w6 := Back(w5);
    var w7 := Back(w6);
    w := Back(w7);
    assert ShiftN(w, 8) == TOP by {
      ShiftUndoesBack(TOP);
      ShiftUndoesBack(w1);
      ShiftUndoesBack(w2);
      ShiftUndoesBack(w3);
      ShiftUndoesBack(w4);
      ShiftUndoesBack(w5);
      ShiftUndoesBack(w6);
      ShiftUndoesBack(w7);
      assert ShiftN(w, 8) == ShiftN(w7, 7) == ShiftN(w6, 6) == ShiftN(w5, 5);
      assert ShiftN(w5, 5) == ShiftN(w4, 4) == ShiftN(w3, 3) == ShiftN(w2, 2) == ShiftN(w1, 1) == TOP;
    }
    assert w1[26] && !w1[31] && !w1[30] && !w1[29] && !w1[28] && !w1[27] && !w1[25];
    assert w2[27] && !w2[31] && !w2[30] && !w2[29] && !w2[28] && !w2[26];
    assert w3[28] && !w3[31] && !w3[30] && !w3[29] && !w3[27] && !w3[0];
    assert w4[29] && !w4[31] && !w4[30] && !w4[28] && !w4[1];
    assert w5[30] && !w5[31] && !w5[29] && !w5[2];
    assert w6[31] && !w6[30] && !w6[3];
    assert w7[4] && !w7[31];
  }

  /** A change in the last four payload bits alone never flips exactly the top
      checksum bit, nor none. */
  lemma StraddleIsSeen(x: Word)
    requires x != ZERO && forall i | 4 <= i < 32 :: !x[i]
    ensures ShiftN(x, 8) != TOP && ShiftN(x, 8) != ZERO
  {
    hide ShiftN;
    ShiftNKeepsNonzero(x, 8);
    if ShiftN(x, 8) == TOP {
      var w := EightBack();
      ShiftNIsInjective(x, w, 8);
    }
  }

  lemma RegisterOfOne(b: Byte)
    ensures Register(ZERO, [b]) == ShiftN(Widen(b), 8)
  {
    hide ShiftN;
    assert Register(ZERO, [b]) == Absorb(ZERO, b);
    assert Xor(ZERO, Widen(b)) == Widen(b);
  }

  lemma LastByteAlone(d: seq<Byte>)
    requires d != [] && Quiet(d[..|d| - 1])
    ensures Register(ZERO, d) == ShiftN(Widen(d[|d| - 1]), 8)
  {
    hide ShiftN, Register;
    var n := |d| - 1;
    assert d == d[..n] + [d[n]];
    RegisterAppend(ZERO, d[..n], [d[n]]);
    QuietRegister(ZERO, d[..n]);
    RegisterOfOne(d[n]);
  }

  /** A change in the last four payload bits shows in the other 31 checksum
      bits, whatever happens to the top one. */
  lemma LastNibbleIsSeen(a: seq<Byte>, b: seq<Byte>)
    requires |a| == |b| && a != [] && forall k | 0 <= k < |a| - 1 :: a[k] == b[k]
    requires var x, y := a[|a| - 1], b[|a| - 1];
             forall j | 0 <= j < 4 :: x[j] == y[j]
    requires forall i | 0 <= i < 31 :: Checksum(a)[i] == Checksum(b)[i]
    ensures a == b
  {
    hide Register, Checksum, Difference, ShiftN;
    var d, n := Difference(a, b), |a| - 1;
    forall k | 0 <= k < |a|
      ensures d[k] == ZERO_BYTE <==> a[k] == b[k]
    {
      XorByteZero(a[k], b[k]);
    }
    ChecksumDifference(a, b);
    LastByteAlone(d);
    var change, x := Xor(Checksum(a), Checksum(b)), Widen(d[n]);
    assert change == TOP || change == ZERO;
    if x != ZERO {
      StraddleIsSeen(x);
    } else {
      assert forall j | 0 <= j < 8 :: d[n][j] == x[7 - j];
    }
  }
}
