/** CRC32C from the other side: the remainder of the message, read as a
    polynomial over two elements, by the Castagnoli generator (Appendix A of
    RFC 9260). Nothing here shifts a register. */
module PolynomialRemainder {
  import opened Crc32c

  /** The exponents of the generator. */
  const EXPONENTS := {32, 28, 27, 26, 25, 23, 22, 20, 19, 18, 14, 13, 11, 10, 9, 8, 6, 0}

  /** Coefficients, highest first. */
  function Generator(): (g: seq<bool>)
    ensures |g| == 33
  {
    seq(33, i requires 0 <= i < 33 => (32 - i) in EXPONENTS)
  }

  /** A polynomial of |q| coefficients times the generator. */
  function Product(q: seq<bool>): (p: seq<bool>)
    ensures |p| == |q| + 32
  {
    if q == [] then Repeat(false, 32)
    else
      var leading := if q[0] then Generator() + Repeat(false, |q| - 1) else Repeat(false, |q| + 32);
      Xor(leading, [false] + Product(q[1..]))
  }

  /** The message in the order the bits count, each byte from its low bit on. */
  function MessageBits(data: seq<Byte>): (m: seq<bool>)
    ensures |m| == 8 * |data|
  {
    seq(8 * |data|, j requires 0 <= j < 8 * |data| => data[j / 8][7 - j % 8])
  }

  /** What is divided: the message moved up by 32 places, its first 32 bits
      complemented. */
  function Dividend(m: seq<bool>): (d: seq<bool>)
    ensures |d| == |m| + 32
  {
    seq(|m| + 32, i requires 0 <= i < |m| + 32 => (i < |m| && m[i]) != (i < 32))
  }

  /** The dividend is a multiple of the generator plus this remainder. */
  ghost predicate Divides(dividend: seq<bool>, quotient: seq<bool>, remainder: Word) {
    |dividend| == |quotient| + 32 && dividend == Xor(Product(quotient), Repeat(false, |quotient|) + remainder)
  }

  // --- There is only one remainder ---------------------------------------------

  lemma ProductAt(q: seq<bool>, i: nat)
    requires q != [] && i < |q| + 32
    ensures Product(q)[i] == ((q[0] && i < 33 && Generator()[i]) != (i > 0 && Product(q[1..])[i - 1]))
  {
    hide Generator;
    var leading := if q[0] then Generator() + Repeat(false, |q| - 1) else Repeat(false, |q| + 32);
    var rest := [false] + Product(q[1..]);
    assert Product(q)[i] == Xor(leading, rest)[i] == (leading[i] != rest[i]);
    assert leading[i] == (q[0] && i < 33 && Generator()[i]);
  }

  lemma {:induction false} OneRemainder(q: seq<bool>, r: Word, p: seq<bool>, s: Word)
    requires |q| == |p|
    requires Xor(Product(q), Repeat(false, |q|) + r) == Xor(Product(p), Repeat(false, |p|) + s)
    ensures q == p && r == s
    decreases |q|
  {
    hide Product, Generator;
    var n := |q|;
    var left, right := Repeat(false, n) + r, Repeat(false, n) + s;
    forall i | 0 <= i < n + 32
      ensures (Product(q)[i] != left[i]) == (Product(p)[i] != right[i])
    {
      assert Xor(Product(q), left)[i] == Xor(Product(p), right)[i];
    }
    if n == 0 {
      assert q == [] && p == [];
      assert left == r && right == s;
      assert r == s;
    } else {
      ProductAt(q, 0);
      ProductAt(p, 0);
      assert Generator()[0] by { GeneratorLeads(); }
      var x, y := Repeat(false, n - 1) + r, Repeat(false, n - 1) + s;
      forall i | 0 <= i < n + 31
        ensures Xor(Product(q[1..]), x)[i] == Xor(Product(p[1..]), y)[i]
      {
        ProductAt(q, i + 1);
        ProductAt(p, i + 1);
        assert left[i + 1] == x[i] && right[i + 1] == y[i];
      }
      OneRemainder(q[1..], r, p[1..], s);
      assert q == [q[0]] + q[1..] && p == [p[0]] + p[1..];
    }
  }

  lemma GeneratorLeads()
    ensures Generator()[0]
  {
  }

  /** The reflected register holds the generator without its leading one. */
  lemma GeneratorIsPolynomial()
    ensures Generator()[1..] == POLYNOMIAL
  {
    var g, p := Generator(), POLYNOMIAL;
    assert forall i | 0 <= i < 8 :: g[i + 1] == p[i];
    assert forall i | 8 <= i < 16 :: g[i + 1] == p[i];
    assert forall i | 16 <= i < 24 :: g[i + 1] == p[i];
    assert forall i | 24 <= i < 32 :: g[i + 1] == p[i];
  }

  // --- The register divides ----------------------------------------------------

  /** The register after these bits, one at a time. */
  function Feed(c: Word, bits: seq<bool>): Word
    decreases |bits|
  {
    if bits == [] then c else Feed(Shift(c[0 := c[0] != bits[0]]), bits[1..])
  }

  /** What the register and the bits still to come stand for. */
  function Pending(c: Word, bits: seq<bool>): (d: seq<bool>)
    ensures |d| == |bits| + 32
  {
    seq(|bits| + 32, i requires 0 <= i < |bits| + 32 => (i < 32 && c[i]) != (i < |bits| && bits[i]))
  }

  lemma {:induction false} FeedDivides(c: Word, bits: seq<bool>) returns (q: seq<bool>)
    ensures |q| == |bits| && Divides(Pending(c, bits), q, Feed(c, bits))
    decreases |bits|
  {
    hide Product, Generator, Shift;
    if bits == [] {
      q := [];
      assert Product([]) == Repeat(false, 32) by { NoProduct(); }
      assert Repeat(false, 0) + c == c;
      assert Pending(c, bits) == Xor(Repeat(false, 32), c);
    } else {
      var e: Word := c[0 := c[0] != bits[0]];
      var rest := FeedDivides(Shift(e), bits[1..]);
      q := [e[0]] + rest;
      var d, inner := Pending(c, bits), Pending(Shift(e), bits[1..]);
      var r, n := Feed(c, bits), |bits|;
      assert q[1..] == rest;
      forall i | 0 <= i < n + 32
        ensures d[i] == Xor(Product(q), Repeat(false, n) + r)[i]
      {
        ProductAt(q, i);
        if i == 0 {
          assert Generator()[0] by { GeneratorLeads(); }
        } else {
          assert inner[i - 1] == Xor(Product(rest), Repeat(false, n - 1) + r)[i - 1];
          assert (Repeat(false, n) + r)[i] == (Repeat(false, n - 1) + r)[i - 1];
          PendingStep(e, c, bits, i);
        }
      }
    }
  }

  lemma NoProduct()
    ensures Product([]) == Repeat(false, 32)
  {
  }

  lemma ShiftAt(e: Word, i: nat)
    requires i < 32
    ensures Shift(e)[i] == ((i < 31 && e[i + 1]) != (e[0] && POLYNOMIAL[i]))
  {
  }

  /** One long-division step. */
  lemma PendingStep(e: Word, c: Word, bits: seq<bool>, i: nat)
    requires bits != [] && e == c[0 := c[0] != bits[0]] && 0 < i < |bits| + 32
    ensures Pending(c, bits)[i] == (Pending(Shift(e), bits[1..])[i - 1] != (e[0] && i < 33 && Generator()[i]))
  {
    hide Generator, Shift;
    if i < 33 {
      ShiftAt(e, i - 1);
      GeneratorIsPolynomial();
      assert Generator()[i] == Generator()[1..][i - 1];
    }
  }

  // --- Byte by byte is bit by bit ------------------------------------------------

  /** Bits at the low end of the register. */
  function AtLowEnd(bits: seq<bool>): (z: Word)
    requires |bits| <= 32
  {
    bits + Repeat(false, 32 - |bits|)
  }

  lemma {:induction false} ShiftsFeed(c: Word, bits: seq<bool>)
    requires |bits| <= 32
    ensures ShiftN(Xor(c, AtLowEnd(bits)), |bits|) == Feed(c, bits)
    decreases |bits|
  {
    hide Shift;
    if bits == [] {
      assert AtLowEnd(bits) == ZERO;
      XorZero(c, ZERO);
    } else {
      var e: Word := c[0 := c[0] != bits[0]];
      var later: Word := [false] + bits[1..] + Repeat(false, 32 - |bits|);
      assert Xor(c, AtLowEnd(bits)) == Xor(e, later);
      ShiftIsLinear(e, later);
      forall i | 0 <= i < 32
        ensures Shift(later)[i] == AtLowEnd(bits[1..])[i]
      {
        ShiftAt(later, i);
      }
      assert Shift(later) == AtLowEnd(bits[1..]);
      ShiftsFeed(Shift(e), bits[1..]);
    }
  }

  lemma AbsorbFeeds(c: Word, b: Byte)
    ensures Absorb(c, b) == Feed(c, MessageBits([b]))
  {
    hide ShiftN, Feed;
    var bits := MessageBits([b]);
    forall i | 0 <= i < 8
      ensures bits[i] == b[7 - i]
    {
      assert i / 8 == 0 && i % 8 == i;
    }
    assert Widen(b) == AtLowEnd(bits);
    ShiftsFeed(c, bits);
  }

  lemma {:induction false} FeedAppend(c: Word, x: seq<bool>, y: seq<bool>)
    ensures Feed(c, x + y) == Feed(Feed(c, x), y)
    decreases |x|
  {
    hide Shift;
    if x == [] {
      assert x + y == y;
    } else {
      assert (x + y)[1..] == x[1..] + y;
      FeedAppend(Shift(c[0 := c[0] != x[0]]), x[1..], y);
    }
  }

  lemma MessageCons(data: seq<Byte>)
    requires data != []
    ensures MessageBits(data) == MessageBits([data[0]]) + MessageBits(data[1..])
  {
    var all, first, rest := MessageBits(data), MessageBits([data[0]]), MessageBits(data[1..]);
    forall j | 0 <= j < |all|
      ensures all[j] == (first + rest)[j]
    {
      if j >= 8 {
        OneByteLess(j);
      }
    }
  }

  lemma OneByteLess(j: nat)
    requires j >= 8
    ensures (j - 8) / 8 == j / 8 - 1 && (j - 8) % 8 == j % 8
  {
  }

  lemma {:induction false} RegisterFeeds(c: Word, data: seq<Byte>)
    ensures Register(c, data) == Feed(c, MessageBits(data))
    decreases |data|
  {
    hide Absorb, Feed;
    if data == [] {
      assert MessageBits(data) == [];
      FeedNothing(c);
    } else {
      AbsorbFeeds(c, data[0]);
      MessageCons(data);
      FeedAppend(c, MessageBits([data[0]]), MessageBits(data[1..]));
      RegisterFeeds(Absorb(c, data[0]), data[1..]);
    }
  }

  lemma FeedNothing(c: Word)
    ensures Feed(c, []) == c
  {
  }

  // --- The checksum ---------------------------------------------------------------

  /** The complement of the checksum, lowest bit first, is the remainder: for
      every message some quotient leaves it, and no quotient leaves another. */
  lemma ChecksumIsRemainder(data: seq<Byte>) returns (quotient: seq<bool>)
    ensures |quotient| == 8 * |data|
    ensures Divides(Dividend(MessageBits(data)), quotient, Xor(Checksum(data), ONES))
    ensures forall q, r: Word | Divides(Dividend(MessageBits(data)), q, r) ::
              q == quotient && forall i | 0 <= i < 32 :: Checksum(data)[i] == !r[i]
  {
    hide Register, Product, Feed;
    var m := MessageBits(data);
    RegisterFeeds(ONES, data);
    quotient := FeedDivides(ONES, m);
    assert Pending(ONES, m) == Dividend(m);
    assert Xor(Checksum(data), ONES) == Register(ONES, data);
    forall q, r: Word | Divides(Dividend(m), q, r)
      ensures q == quotient && forall i | 0 <= i < 32 :: Checksum(data)[i] == !r[i]
    {
      OneRemainder(q, r, quotient, Register(ONES, data));
    }
  }
}
