/** What the textual checks of 32-byte values stand for: each accepts exactly
    the one spelling the encoding of section 4 of RFC 4648 gives to some 32
    bytes (section 5 for the URL alphabet). */
module Base64 {
  import opened AgentStates
  import opened Wrappers
  import ConsumerProof

  type Octet = ConsumerProof.Octet

  /** Six bits at a time, most significant first, the last filled up with zeros. */
  function Digits(data: seq<Octet>): seq<nat> {
    if data == [] then []
    else if |data| == 1 then [data[0] / 4, data[0] % 4 * 16]
    else if |data| == 2 then [data[0] / 4, data[0] % 4 * 16 + data[1] / 16, data[1] % 16 * 4]
    else
      [data[0] / 4, data[0] % 4 * 16 + data[1] / 16, data[1] % 16 * 4 + data[2] / 64, data[2] % 64] + Digits(data[3..])
  }

  /** The letter for a digit; the two alphabets differ in the last two. */
  function Letter(n: nat, url: bool): char
    requires n < 64
  {
    if n < 26 then 'A' + n as char
    else if n < 52 then 'a' + (n - 26) as char
    else if n < 62 then '0' + (n - 52) as char
    else if n == 62 then (if url then '-' else '+')
    else if url then '_' else '/'
  }

  lemma OneGroup(a: Octet, b: Octet, c: Octet)
    ensures a / 4 < 64 && a % 4 * 16 + b / 16 < 64 && b % 16 * 4 + c / 64 < 64 && c % 64 < 64
  {
  }

  lemma ThreeMore(n: nat)
    ensures (8 * (n + 3) + 5) / 6 == (8 * n + 5) / 6 + 4 && (n + 3) % 3 == n % 3
  {
  }

  lemma ShortDigits(data: seq<Octet>)
    requires |data| <= 2
    ensures |Digits(data)| == (8 * |data| + 5) / 6 && forall i | 0 <= i < |Digits(data)| :: Digits(data)[i] < 64
    ensures |data| % 3 == 2 ==> Digits(data)[|Digits(data)| - 1] % 4 == 0
  {
  }

  lemma {:induction false} DigitsAreSmall(data: seq<Octet>)
    ensures |Digits(data)| == (8 * |data| + 5) / 6 && forall i | 0 <= i < |Digits(data)| :: Digits(data)[i] < 64
    ensures |data| % 3 == 2 ==> Digits(data)[|Digits(data)| - 1] % 4 == 0
    decreases |data|
  {
    if |data| <= 2 {
      ShortDigits(data);
    } else {
      var a, b, c, rest := data[0], data[1], data[2], Digits(data[3..]);
      DigitsAreSmall(data[3..]);
      OneGroup(a, b, c);
      ThreeMore(|data| - 3);
      assert Digits(data) == [a / 4, a % 4 * 16 + b / 16, b % 16 * 4 + c / 64, c % 64] + rest;
      hide Digits;
    }
  }

  /** The text of some bytes, without padding. */
  function Text(data: seq<Octet>, url: bool): (s: string)
    ensures |s| == (8 * |data| + 5) / 6
  {
    DigitsAreSmall(data);
    var ds := Digits(data);
    seq(|ds|, i requires 0 <= i < |ds| => Letter(ds[i], url))
  }

  lemma Regroup(w: nat, x: nat, y: nat, z: nat) returns (a: Octet, b: Octet, c: Octet)
    requires w < 64 && x < 64 && y < 64 && z < 64
    ensures a / 4 == w && a % 4 * 16 + b / 16 == x && b % 16 * 4 + c / 64 == y && c % 64 == z
  {
    a, b, c := w * 4 + x / 16, x % 16 * 16 + y / 4, y % 4 * 64 + z;
  }

  /** Any such digits are those of some bytes. */
  lemma {:induction false} FromDigits(ds: seq<nat>) returns (data: seq<Octet>)
    requires |ds| % 4 == 3 && ds[|ds| - 1] % 4 == 0 && forall i | 0 <= i < |ds| :: ds[i] < 64
    ensures Digits(data) == ds && |data| == 3 * (|ds| / 4) + 2
    decreases |ds|
  {
    if |ds| == 3 {
      var a, b, _ := Regroup(ds[0], ds[1], ds[2], 0);
      data := [a, b];
      assert ds == [ds[0], ds[1], ds[2]];
    } else {
      var a, b, c := Regroup(ds[0], ds[1], ds[2], ds[3]);
      var rest := FromDigits(ds[4..]);
      data := [a, b, c] + rest;
      assert data[3..] == rest;
      assert ds == [ds[0], ds[1], ds[2], ds[3]] + ds[4..];
    }
  }

  // --- Letters and digits ----------------------------------------------------------

  function Place(c: char, url: bool): (n: nat)
    requires if url then UrlChar(c) else StdChar(c)
    ensures n < 64 && Letter(n, url) == c
  {
    if 'A' <= c <= 'Z' then c as nat - 'A' as nat
    else if 'a' <= c <= 'z' then c as nat - 'a' as nat + 26
    else if '0' <= c <= '9' then c as nat - '0' as nat + 52
    else if c == '-' || c == '+' then 62
    else 63
  }

  lemma LetterIsOfAlphabet(n: nat, url: bool)
    requires n < 64
    ensures (if url then UrlChar(Letter(n, url)) else StdChar(Letter(n, url))) && Place(Letter(n, url), url) == n
  {
  }

  lemma Fourths(k: int, from: int)
    requires from <= k < from + 28
    ensures (k - from) % 4 == 0 <==>
            k == from || k == from + 4 || k == from + 8 || k == from + 12 || k == from + 16 || k == from + 20 || k == from + 24
  {
    var q := (k - from) / 4;
    assert k - from == 4 * q + (k - from) % 4;
  }

  lemma FinalCodes(c: char)
    ensures FinalChar(c) <==>
            var k := c as int;
            || (65 <= k <= 90 && (k - 65) % 4 == 0) || (97 <= k <= 122 && (k - 95) % 4 == 0)
            || (48 <= k <= 57 && (k - 48) % 4 == 0)
  {
    var k := c as int;
    assert FinalChar(c) <==>
      k == 65 || k == 69 || k == 73 || k == 77 || k == 81 || k == 85 || k == 89 || k == 99 || k == 103
      || k == 107 || k == 111 || k == 115 || k == 119 || k == 48 || k == 52 || k == 56;
    hide FinalChar;
    if 65 <= k <= 90 {
      Fourths(k, 65);
    } else if 97 <= k <= 122 {
      Fourths(k, 95);
    } else if 48 <= k <= 57 {
      Fourths(k, 48);
    }
  }

  lemma FinalIffSpareBitsAreZero(n: nat, url: bool)
    requires n < 64
    ensures FinalChar(Letter(n, url)) <==> n % 4 == 0
  {
    hide FinalChar;
    FinalCodes(Letter(n, url));
  }

  /** Forty-three letters, the last with its spare bits zero, spell 32 bytes. */
  lemma SpellsThirtyTwoBytes(s: string, url: bool) returns (data: seq<Octet>)
    requires |s| == 43 && FinalChar(s[42])
    requires forall i | 0 <= i < 43 :: if url then UrlChar(s[i]) else StdChar(s[i])
    ensures |data| == 32 && s == Text(data, url)
  {
    hide UrlChar, StdChar, FinalChar, Letter;
    var ds := seq(43, i requires 0 <= i < 43 => Place(s[i], url));
    FinalIffSpareBitsAreZero(ds[42], url);
    data := FromDigits(ds);
    assert forall i | 0 <= i < 43 :: Text(data, url)[i] == s[i];
  }

  lemma TextOfThirtyTwoBytes(data: seq<Octet>, url: bool)
    requires |data| == 32
    ensures var s := Text(data, url);
            && |s| == 43 && FinalChar(s[42])
            && forall i | 0 <= i < 43 :: if url then UrlChar(s[i]) else StdChar(s[i])
  {
    hide UrlChar, StdChar, FinalChar, Letter, Digits;
    DigitsAreSmall(data);
    var ds := Digits(data);
    FinalIffSpareBitsAreZero(ds[42], url);
    forall i | 0 <= i < 43
      ensures if url then UrlChar(Text(data, url)[i]) else StdChar(Text(data, url)[i])
    {
      LetterIsOfAlphabet(ds[i], url);
    }
  }

  // --- The checks --------------------------------------------------------------------

  /** Canonical unpadded base64url of exactly 32 bytes, and nothing else. */
  lemma Base64Url32IffSpelled(s: string)
    ensures Base64Url32(s) <==> exists data :: |data| == 32 && s == Text(data, true)
  {
    hide UrlChar, FinalChar, Text;
    if Base64Url32(s) {
      var data := SpellsThirtyTwoBytes(s, true);
    }
    if data :| |data| == 32 && s == Text(data, true) {
      TextOfThirtyTwoBytes(data, true);
    }
  }

  /** Canonical padded standard base64 of exactly 32 bytes. */
  lemma PublicKeyTextIffSpelled(s: string)
    ensures PublicKeyText(s) <==> exists data :: |data| == 32 && s == Text(data, false) + "="
  {
    hide StdChar, FinalChar, Text;
    if PublicKeyText(s) {
      var data := SpellsThirtyTwoBytes(s[..43], false);
      assert s == s[..43] + [s[43]];
    }
    if data :| |data| == 32 && s == Text(data, false) + "=" {
      TextOfThirtyTwoBytes(data, false);
      assert s[..43] == Text(data, false);
    }
  }

  /** The bytes of an ASCII text. */
  predicate IsTextOf(b: seq<Octet>, s: string) {
    |b| == |s| && forall i | 0 <= i < |b| :: b[i] == s[i] as int
  }

  /** A proof's nonce is the unpadded base64url text of 32 bytes. */
  lemma NonceIffSpelled(b: seq<Octet>)
    ensures ConsumerProof.IsNonce(b) <==> exists data :: |data| == 32 && IsTextOf(b, Text(data, true))
  {
    hide Text, FinalChar;
    if ConsumerProof.IsNonce(b) {
      var s := seq(43, i requires 0 <= i < 43 => b[i] as char);
      forall i | 0 <= i < 43
        ensures UrlChar(s[i]) && Letter(ConsumerProof.Digit(b[i]).value, true) == s[i]
      {
      }
      FinalIffSpareBitsAreZero(ConsumerProof.Digit(b[42]).value, true);
      var data := SpellsThirtyTwoBytes(s, true);
      assert IsTextOf(b, Text(data, true));
    }
    if data :| |data| == 32 && IsTextOf(b, Text(data, true)) {
      TextOfThirtyTwoBytes(data, true);
      var s := Text(data, true);
      forall i | 0 <= i < 43
        ensures ConsumerProof.Digit(b[i]) == Some(Place(s[i], true))
      {
        assert b[i] == s[i] as int && UrlChar(s[i]);
      }
      FinalIffSpareBitsAreZero(Place(s[42], true), true);
    }
  }
}
