/** The identifier as the design writes it down, against the gate: each step of
    the derivation in terms of its own, none of it through the gate's helpers. */
module CridDesign {
  import opened Base32
  import opened Crc32c
  import opened Crid
  import opened PolynomialRemainder
  import opened Wrappers

  // --- Bytes and letters ---------------------------------------------------------

  /** A byte is a number read with its most significant bit first, and the only
      byte with that number. */
  lemma CodeReadsTheByte(b: Byte)
    ensures Code(b) == Value([b[7], b[6], b[5], b[4], b[3], b[2], b[1], b[0]]) < 256
    ensures Octet(Code(b)) == b
  {
    hide Value, Octet;
    CodeIsValue(b);
    CodeOfOctet(Code(b));
    SameCode(Octet(Code(b)), b);
  }

  lemma Halves(n: nat)
    requires n < 256
    ensures n == n % 2 + 2 * (n / 2 % 2) + 4 * (n / 4 % 2) + 8 * (n / 8 % 2) + 16 * (n / 16 % 2) + 32 * (n / 32 % 2)
                 + 64 * (n / 64 % 2) + 128 * (n / 128 % 2)
  {
    assert n / 4 == n / 2 / 2;
    assert n / 8 == n / 4 / 2;
    assert n / 16 == n / 8 / 2;
    assert n / 32 == n / 16 / 2;
    assert n / 64 == n / 32 / 2;
    assert n / 128 == n / 64 / 2;
    assert n / 128 / 2 == 0;
  }

  lemma Weigh(b: Byte, d0: nat, d1: nat, d2: nat, d3: nat, d4: nat, d5: nat, d6: nat, d7: nat)
    requires d0 < 2 && d1 < 2 && d2 < 2 && d3 < 2 && d4 < 2 && d5 < 2 && d6 < 2 && d7 < 2
    requires b[0] == (d0 == 1) && b[1] == (d1 == 1) && b[2] == (d2 == 1) && b[3] == (d3 == 1)
    requires b[4] == (d4 == 1) && b[5] == (d5 == 1) && b[6] == (d6 == 1) && b[7] == (d7 == 1)
    ensures Code(b) == d7 + 2 * d6 + 4 * d5 + 8 * d4 + 16 * d3 + 32 * d2 + 64 * d1 + 128 * d0
  {
    assert Weight(b[0], 128) == 128 * d0 && Weight(b[1], 64) == 64 * d1 && Weight(b[2], 32) == 32 * d2;
    assert Weight(b[3], 16) == 16 * d3 && Weight(b[4], 8) == 8 * d4 && Weight(b[5], 4) == 4 * d5;
    assert Weight(b[6], 2) == 2 * d6 && Weight(b[7], 1) == d7;
    hide Weight;
  }

  lemma CodeOfOctet(n: nat)
    requires n < 256
    ensures Code(Octet(n)) == n
  {
    hide Code;
    Halves(n);
    Weigh(Octet(n), n / 128 % 2, n / 64 % 2, n / 32 % 2, n / 16 % 2, n / 8 % 2, n / 4 % 2, n / 2 % 2, n % 2);
  }

  lemma {:induction false} SameValue(x: seq<bool>, y: seq<bool>)
    requires |x| == |y| && Value(x) == Value(y)
    ensures x == y
    decreases |x|
  {
    if x != [] {
      SameValue(x[1..], y[1..]);
      assert x == [x[0]] + x[1..] && y == [y[0]] + y[1..];
    }
  }

  lemma CodeIsValue(b: Byte)
    ensures Code(b) == Value([b[7], b[6], b[5], b[4], b[3], b[2], b[1], b[0]])
  {
    hide Value;
    var bits := [b[7], b[6], b[5], b[4], b[3], b[2], b[1], b[0]];
    NothingIsZero();
    OctetValue(b[7], b[6], b[5], b[4], b[3], b[2], b[1], b[0], []);
    assert bits + [] == bits;
  }

  lemma SameCode(x: Byte, y: Byte)
    requires Code(x) == Code(y)
    ensures x == y
  {
    hide Code, Value;
    CodeIsValue(x);
    CodeIsValue(y);
    var p, q := [x[7], x[6], x[5], x[4], x[3], x[2], x[1], x[0]], [y[7], y[6], y[5], y[4], y[3], y[2], y[1], y[0]];
    SameValue(p, q);
    assert forall i | 0 <= i < 8 :: x[i] == p[7 - i] && y[i] == q[7 - i];
  }

  lemma {:induction false} AsciiAt(s: string, i: nat)
    requires i < |s| && s[i] as int < 256
    ensures Code(Ascii(s)[i]) == s[i] as int
    decreases i
  {
    hide Octet, Code;
    if i == 0 {
      CodeOfOctet(s[0] as nat);
      assert s[0] as nat % 256 == s[0] as nat;
    } else {
      AsciiAt(s[1..], i - 1);
    }
  }

  /** Bit k of some bytes, zeros after the last. */
  function BitAt(data: seq<Byte>, k: nat): nat {
    if k < 8 * |data| then Bit(data[k / 8][k % 8]) else 0
  }

  /** The i-th letter stands for the i-th five bits (section 6 of RFC 4648). */
  lemma LettersAreFiveBits(data: seq<Byte>, i: nat)
    requires i < |Encode(data)|
    ensures |Encode(data)| == (8 * |data| + 4) / 5
    ensures Encode(data)[i] == "abcdefghijklmnopqrstuvwxyz234567"[
              16 * BitAt(data, 5 * i) + 8 * BitAt(data, 5 * i + 1) + 4 * BitAt(data, 5 * i + 2)
              + 2 * BitAt(data, 5 * i + 3) + BitAt(data, 5 * i + 4)]
  {
    var p := Padded(Flatten(data));
    var q := p[5 * i..5 * i + 5];
    hide Letter, Number;
    forall j | 0 <= j < 5
      ensures Bit(q[j]) == BitAt(data, 5 * i + j)
    {
      assert q[j] == p[5 * i + j];
    }
    assert Encode(data)[i] == Letter(Number(q));
    FiveBits(q);
  }

  lemma FiveBits(q: Quintet)
    ensures Number(q) == 16 * Bit(q[0]) + 8 * Bit(q[1]) + 4 * Bit(q[2]) + 2 * Bit(q[3]) + Bit(q[4])
  {
  }

  // --- What is accepted ------------------------------------------------------------

  /** A version byte that is not zero, a digest of one of the two lengths, and the
      complement of the remainder of both, most significant bit first. */
  ghost predicate IsCodeword(word: seq<Byte>, quotient: seq<bool>, remainder: Word) {
    && |word| in {37, 29} && word[0] != Repeat(false, 8)
    && (var n := |word| - 4;
        && Divides(Dividend(MessageBits(word[..n])), quotient, remainder)
        && forall k | 0 <= k < 32 :: word[n + k / 8][k % 8] == !remainder[31 - k])
  }

  lemma SpelledIsCodeword(payload: seq<Byte>) returns (quotient: seq<bool>, remainder: Word)
    requires IsPayload(payload)
    ensures IsCodeword(Codeword(payload), quotient, remainder)
  {
    hide Checksum, Divides, Dividend, MessageBits, BigEndian;
    quotient := ChecksumIsRemainder(payload);
    remainder := Xor(Checksum(payload), ONES);
    var word, n := Codeword(payload), |payload|;
    assert word[..n] == payload;
    forall k | 0 <= k < 32
      ensures word[n + k / 8][k % 8] == !remainder[31 - k]
    {
      assert word[n + k / 8] == BigEndian(Checksum(payload))[k / 8];
    }
  }

  lemma CodewordIsSpelled(word: seq<Byte>, quotient: seq<bool>, remainder: Word) returns (payload: seq<Byte>)
    requires IsCodeword(word, quotient, remainder)
    ensures IsPayload(payload) && word == Codeword(payload)
  {
    hide Checksum, Divides, Dividend, MessageBits, BigEndian;
    var n := |word| - 4;
    payload := word[..n];
    var trailer := word[n..];
    var q := ChecksumIsRemainder(payload);
    var sum := BigEndian(Checksum(payload));
    forall k | 0 <= k < 32
      ensures trailer[k / 8][k % 8] == sum[k / 8][k % 8]
    {
      assert trailer[k / 8] == word[n + k / 8];
    }
    SameBits(trailer, sum);
    assert word == payload + trailer;
  }

  /** The gate accepts exactly the letters of such words. */
  lemma AcceptedIffRemainder(s: string)
    ensures Parse(s).Success? <==>
            exists word, quotient, remainder :: IsCodeword(word, quotient, remainder) && s == Encode(word)
  {
    hide Parse, IsCodeword, Codeword, Encode, IsPayload;
    AcceptedIffSpelled(s);
    if Parse(s).Success? {
      var payload :| IsPayload(payload) && s == Spell(payload);
      var quotient, remainder := SpelledIsCodeword(payload);
      SpellIsEncode(payload);
    }
    if word, quotient, remainder :| IsCodeword(word, quotient, remainder) && s == Encode(word) {
      var payload := CodewordIsSpelled(word, quotient, remainder);
      SpellIsEncode(payload);
    }
  }

  /** Which version bytes are known, at which digest length, and as what. */
  lemma KnownVersions(s: string)
    requires Parse(s).Success?
    ensures var c := Parse(s).value;
            var v, n := Value([c.version[7], c.version[6], c.version[5], c.version[4], c.version[3], c.version[2], c.version[1], c.version[0]]), |c.digest|;
            && (c.known <==> (v, n) in {(0x01, 32), (0x81, 32), (0x02, 24), (0x82, 24)})
            && (c.active <==> (v, n) in {(0x01, 32), (0x81, 32)})
            && c.environment == (if (v, n) in {(0x01, 32), (0x02, 24)} then Production
                                 else if (v, n) in {(0x81, 32), (0x82, 24)} then Test else UnknownEnvironment)
  {
    hide Parse, Spell, Code, Value;
    AcceptedIsSpelled(s);
    CodeReadsTheByte(Parse(s).value.version);
  }

  // --- Keys ------------------------------------------------------------------------

  /** What is hashed for a key: the sixteen letters of the domain, a zero, the key. */
  ghost predicate Commits(m: seq<Byte>, spki: seq<Byte>) {
    && |m| == 17 + |spki|
    && (forall i | 0 <= i < 16 :: Code(m[i]) == "NHP-QURL-CRID-V1"[i] as int)
    && Code(m[16]) == 0 && m[17..] == spki
  }

  lemma MessageCommits(spki: seq<Byte>)
    ensures Commits(Message(spki), spki)
  {
    hide Code, Ascii;
    var text := "NHP-QURL-CRID-V1";
    forall i | 0 <= i < 16
      ensures Code(Message(spki)[i]) == text[i] as int
    {
      AsciiAt(text, i);
    }
    assert Code(ZERO_BYTE) == 0 by { ZeroCode(); }
  }

  lemma ZeroCode()
    ensures Code(ZERO_BYTE) == 0
  {
  }

  lemma OneMessage(m: seq<Byte>, spki: seq<Byte>)
    requires Commits(m, spki)
    ensures m == Message(spki)
  {
    hide Code, Message;
    MessageCommits(spki);
    var w := Message(spki);
    forall i | 0 <= i < |m|
      ensures m[i] == w[i]
    {
      if i < 17 {
        SameCode(m[i], w[i]);
      } else {
        assert m[i] == m[17..][i - 17] && w[i] == w[17..][i - 17];
      }
    }
  }

  /** A key is the committed one if and only if the held string spells its version
      and the leading bytes of the digest of prefix, zero and key. */
  lemma KeyMatchesIffCommitted(s: string, spki: seq<Byte>, m: seq<Byte>, sha256: seq<Byte> -> Digest)
    requires Parse(s).Success? && Commits(m, spki)
    ensures var c := Parse(s).value;
            && |c.digest| in {32, 24}
            && KeyMatches(s, spki, sha256) == Success(s == Spell([c.version] + sha256(m)[..|c.digest|]))
  {
    hide Parse, Spell, Message, KeyMatches, Commits, Described;
    OneMessage(m, spki);
    KeyMatchesIffDerivedAgain(s, spki, sha256);
    AcceptedIsSpelled(s);
  }

  predicate AgreeUpTo(x: Digest, y: Digest, n: nat) {
    n <= 32 && x[..n] == y[..n]
  }

  /** A second key under one held identifier is two inputs with one digest prefix. */
  lemma SecondKeyIsCollision(s: string, c: Crid, held: seq<Byte>, other: seq<Byte>, sha256: seq<Byte> -> Digest)
    returns (m: seq<Byte>, k: seq<Byte>)
    requires Parse(s) == Success(c) && held != other
    requires KeyMatches(s, held, sha256) == Success(true) && KeyMatches(s, other, sha256) == Success(true)
    ensures Commits(m, held) && Commits(k, other) && m != k
    ensures |c.digest| in {32, 24} && AgreeUpTo(sha256(m), sha256(k), |c.digest|)
  {
    hide Parse, Message, Commits, Spell, Described;
    AcceptedIsSpelled(s);
    MessageCommits(held);
    MessageCommits(other);
    MessageEndsInKey(held);
    MessageEndsInKey(other);
    m, k := Message(held), Message(other);
    assert sha256(m)[..|c.digest|] == c.digest == sha256(k)[..|c.digest|];
  }

  lemma MessageEndsInKey(spki: seq<Byte>)
    ensures |Message(spki)| == 17 + |spki| && Message(spki)[17..] == spki
  {
    MessageCommits(spki);
  }
}
