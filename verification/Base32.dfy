/** Unpadded lowercase base32 (section 6 of RFC 4648) as a regrouping of bits,
    and which spellings are canonical (section 3.5 of RFC 4648). */
module Base32 {
  import opened Crc32c
  import opened Wrappers

  const ALPHABET := "abcdefghijklmnopqrstuvwxyz234567"

  /** Five bits, most significant first. */
  type Quintet = q: seq<bool> | |q| == 5 witness [false, false, false, false, false]

  predicate InAlphabet(c: char): (r: bool)
    ensures r <==> 'a' <= c <= 'z' || '2' <= c <= '7'
  {
    c in ALPHABET
  }

  function Letter(n: nat): (c: char)
    requires n < 32
    ensures c as nat == if n < 26 then 'a' as nat + n else '2' as nat + n - 26
  {
    ALPHABET[n]
  }

  /** The place of a letter in the alphabet; a foreign character has none, and
      decoding refuses it first. */
  function Index(c: char): (n: nat)
    ensures n < 32 && (InAlphabet(c) ==> Letter(n) == c)
  {
    if 'a' <= c <= 'z' then c as nat - 'a' as nat
    else if '2' <= c <= '7' then c as nat - '2' as nat + 26
    else 0
  }

  function Weight(bit: bool, weight: nat): nat {
    if bit then weight else 0
  }

  function Number(q: Quintet): (n: nat)
    ensures n < 32
  {
    Weight(q[0], 16) + Weight(q[1], 8) + Weight(q[2], 4) + Weight(q[3], 2) + Weight(q[4], 1)
  }

  /** The inverse of Number, one power of two at a time. */
  function Binary(n: nat): (q: Quintet)
    requires n < 32
    ensures Number(q) == n
  {
    var r1 := if n >= 16 then n - 16 else n;
    var r2 := if r1 >= 8 then r1 - 8 else r1;
    var r3 := if r2 >= 4 then r2 - 4 else r2;
    var r4 := if r3 >= 2 then r3 - 2 else r3;
    [n >= 16, r1 >= 8, r2 >= 4, r3 >= 2, r4 >= 1]
  }

  function Symbol(q: Quintet): char {
    Letter(Number(q))
  }

  function QuintetOf(c: char): Quintet {
    Binary(Index(c))
  }

  lemma NumberIsInjective(p: Quintet, q: Quintet)
    requires Number(p) == Number(q)
    ensures p == q
  {
    assert p[0] == q[0] && p[1] == q[1] && p[2] == q[2] && p[3] == q[3] && p[4] == q[4];
  }

  lemma SymbolRoundTrip(q: Quintet)
    ensures InAlphabet(Symbol(q)) && QuintetOf(Symbol(q)) == q
  {
    hide InAlphabet, Letter, Number, Binary;
    assert Index(Symbol(q)) == Number(q);
    NumberIsInjective(QuintetOf(Symbol(q)), q);
  }

  lemma QuintetRoundTrip(c: char)
    requires InAlphabet(c)
    ensures Symbol(QuintetOf(c)) == c
  {
    hide InAlphabet, Letter, Number, Binary;
    assert Number(QuintetOf(c)) == Index(c);
  }

  /** The bits of some bytes. */
  function Flatten(data: seq<Byte>): (bits: seq<bool>)
    ensures |bits| == 8 * |data|
  {
    seq(8 * |data|, k requires 0 <= k < 8 * |data| => data[k / 8][k % 8])
  }

  /** Whole bytes from the front; fewer than eight bits are dropped. */
  function Bytes(bits: seq<bool>): (data: seq<Byte>)
    ensures |data| == |bits| / 8
  {
    seq(|bits| / 8, i requires 0 <= i < |bits| / 8 => bits[8 * i..8 * i + 8])
  }

  predicate Spelled(s: string) {
    forall k | 0 <= k < |s| :: InAlphabet(s[k])
  }

  function Ungroup(s: string): (bits: seq<bool>)
    ensures |bits| == 5 * |s|
  {
    seq(5 * |s|, k requires 0 <= k < 5 * |s| => QuintetOf(s[k / 5])[k % 5])
  }

  lemma {:induction false} UngroupAt(s: string, i: nat, j: nat)
    requires i < |s| && j < 5
    ensures Ungroup(s)[5 * i + j] == QuintetOf(s[i])[j]
    decreases i
  {
    hide QuintetOf;
    if i > 0 {
      UngroupAt(s[1..], i - 1, j);
    }
  }

  /** Zeros up to a whole number of groups. */
  function Padded(bits: seq<bool>): (p: seq<bool>)
    ensures |p| == 5 * ((|bits| + 4) / 5) && bits <= p && forall k | |bits| <= k < |p| :: !p[k]
  {
    bits + Repeat(false, 5 * ((|bits| + 4) / 5) - |bits|)
  }

  /** Groups of five bits, the last filled up with zeros. */
  function Group(bits: seq<bool>): (s: string)
    ensures |s| == (|bits| + 4) / 5
  {
    var p := Padded(bits);
    seq(|p| / 5, i requires 0 <= i < |p| / 5 => Symbol(p[5 * i..5 * i + 5]))
  }

  function Encode(data: seq<Byte>): string {
    Group(Flatten(data))
  }

  /** Fails on a foreign character and on a length no encoding has. */
  function Decode(s: string): Option<seq<Byte>> {
    if Spelled(s) && |s| % 8 !in {1, 3, 6} then Some(Bytes(Ungroup(s))) else None
  }

  // --- Round trips ------------------------------------------------------------

  lemma GroupRoundTrip(bits: seq<bool>)
    ensures Spelled(Group(bits)) && Ungroup(Group(bits)) == Padded(bits)
  {
    hide Symbol, QuintetOf, InAlphabet, Padded;
    var s, p := Group(bits), Padded(bits);
    forall i | 0 <= i < |s|
      ensures InAlphabet(s[i]) && QuintetOf(s[i]) == p[5 * i..5 * i + 5]
    {
      SymbolRoundTrip(p[5 * i..5 * i + 5]);
    }
    forall k | 0 <= k < |p|
      ensures Ungroup(s)[k] == p[k]
    {
      var i := k / 5;
      assert QuintetOf(s[i])[k % 5] == p[5 * i..5 * i + 5][k % 5];
    }
  }

  lemma {:induction false} UngroupIsInjective(s: string, t: string)
    requires Spelled(s) && Spelled(t) && Ungroup(s) == Ungroup(t)
    ensures s == t
  {
    hide InAlphabet, QuintetOf, Symbol;
    assert |s| == |t|;
    forall i | 0 <= i < |s|
      ensures s[i] == t[i]
    {
      var x, y := QuintetOf(s[i]), QuintetOf(t[i]);
      forall j | 0 <= j < 5
        ensures x[j] == y[j]
      {
        UngroupAt(s, i, j);
        UngroupAt(t, i, j);
      }
      assert x == y;
      QuintetRoundTrip(s[i]);
      QuintetRoundTrip(t[i]);
    }
  }

  /** Bytes that agree bit by bit are the same bytes. */
  lemma SameBits(a: seq<Byte>, b: seq<Byte>)
    requires |a| == |b| && forall k | 0 <= k < 8 * |a| :: a[k / 8][k % 8] == b[k / 8][k % 8]
    ensures a == b
  {
    forall i | 0 <= i < |a|
      ensures a[i] == b[i]
    {
      forall j | 0 <= j < 8
        ensures a[i][j] == b[i][j]
      {
        var k := 8 * i + j;
        assert k / 8 == i && k % 8 == j;
      }
    }
  }

  lemma BytesOfFlatten(data: seq<Byte>, rest: seq<bool>)
    requires |rest| < 8
    ensures Bytes(Flatten(data) + rest) == data
  {
    SameBits(Bytes(Flatten(data) + rest), data);
  }

  lemma FlattenOfBytes(bits: seq<bool>)
    ensures Flatten(Bytes(bits)) == bits[..8 * (|bits| / 8)]
  {
  }

  lemma ByteLength(n: nat)
    ensures (8 * n + 4) / 5 % 8 !in {1, 3, 6}
    ensures 5 * ((8 * n + 4) / 5) - 8 * n < 8
  {
    var q, r := n / 5, n % 5;
    assert 8 * n + 4 == 5 * (8 * q) + 8 * r + 4;
    assert (8 * n + 4) / 5 == 8 * q + (8 * r + 4) / 5;
  }

  lemma DecodeEncode(data: seq<Byte>)
    ensures Decode(Encode(data)) == Some(data)
  {
    hide Group, QuintetOf, InAlphabet;
    var bits := Flatten(data);
    GroupRoundTrip(bits);
    ByteLength(|data|);
    BytesOfFlatten(data, Repeat(false, 5 * |Encode(data)| - |bits|));
  }

  lemma EncodedLength(n: nat)
    requires n % 8 !in {1, 3, 6}
    ensures (8 * (5 * n / 8) + 4) / 5 == n
  {
    var q, r := n / 8, n % 8;
    assert 5 * n == 8 * (5 * q) + 5 * r;
    assert 5 * n / 8 == 5 * q + 5 * r / 8;
  }

  /** Two strings decode to the same bytes, but only one of them is how the
      bytes are spelled: the one whose spare bits are zero. */
  lemma CanonicalIffSpareBitsAreZero(s: string)
    requires Decode(s).Some?
    ensures var data := Decode(s).value;
            && |data| == 5 * |s| / 8
            && (Encode(data) == s <==> forall k | 8 * |data| <= k < 5 * |s| :: !Ungroup(s)[k])
  {
    hide Group, QuintetOf, InAlphabet;
    var bits := Ungroup(s);
    var data := Bytes(bits);
    var n, t := 8 * |data|, Encode(data);
    FlattenOfBytes(bits);
    GroupRoundTrip(bits[..n]);
    EncodedLength(|s|);
    assert |t| == |s|;
    var spare := Repeat(false, 5 * |s| - n);
    assert bits == bits[..n] + bits[n..] && (bits[..n] + spare)[n..] == spare;
    if bits[n..] == spare {
      UngroupIsInjective(s, t);
    }
    assert s == t <==> bits[n..] == spare;
    AllZero(bits, n);
  }

  lemma AllZero(bits: seq<bool>, n: nat)
    requires n <= |bits|
    ensures bits[n..] == Repeat(false, |bits| - n) <==> forall k | n <= k < |bits| :: !bits[k]
  {
    var spare := Repeat(false, |bits| - n);
    if bits[n..] == spare {
      forall k | n <= k < |bits|
        ensures !bits[k]
      {
        assert bits[n..][k - n] == spare[k - n];
      }
    }
  }
}
