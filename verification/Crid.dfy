/** Cryptographic Resource IDs: the local validation gate, what exactly it
    accepts, and the typing errors it cannot miss. */
module Crid {
  import opened Base32
  import opened Crc32c
  import opened Wrappers

  const FULL_LENGTH := 60
  const TRUNCATED_LENGTH := 47
  const CHECKSUM_LENGTH := 4
  const FULL_DIGEST_LENGTH := 32
  const TRUNCATED_DIGEST_LENGTH := 24

  datatype Rejection = Charset | Length | NonCanonical | BadChecksum | ForbiddenVersion

  datatype Environment = Production | Test | UnknownEnvironment

  datatype Crid = Crid(
    value: string, version: Byte, known: bool, active: bool, environment: Environment, digest: seq<Byte>)

  datatype Row = Row(digestLength: nat, environment: Environment, active: bool)

  function Octet(n: nat): (b: Byte)
    requires n < 256
  {
    [n / 128 % 2 == 1, n / 64 % 2 == 1, n / 32 % 2 == 1, n / 16 % 2 == 1] +
    [n / 8 % 2 == 1, n / 4 % 2 == 1, n / 2 % 2 == 1, n % 2 == 1]
  }

  /** A byte as a number. */
  function Code(b: Byte): nat {
    Weight(b[0], 128) + Weight(b[1], 64) + Weight(b[2], 32) + Weight(b[3], 16)
    + Weight(b[4], 8) + Weight(b[5], 4) + Weight(b[6], 2) + Weight(b[7], 1)
  }

  /** The version bytes this release knows. */
  function Registered(version: Byte): Option<Row> {
    var code := Code(version);
    if code == 0x01 then Some(Row(FULL_DIGEST_LENGTH, Production, true))
    else if code == 0x81 then Some(Row(FULL_DIGEST_LENGTH, Test, true))
    else if code == 0x02 then Some(Row(TRUNCATED_DIGEST_LENGTH, Production, false))
    else if code == 0x82 then Some(Row(TRUNCATED_DIGEST_LENGTH, Test, false))
    else None
  }

  /** The register as four bytes, most significant bit first. */
  function BigEndian(w: Word): (data: seq<Byte>)
    ensures |data| == 4 && forall k | 0 <= k < 32 :: data[k / 8][k % 8] == w[31 - k]
  {
    Bytes(seq(32, i requires 0 <= i < 32 => w[31 - i]))
  }

  predicate HasLength(s: string) {
    |s| == FULL_LENGTH || |s| == TRUNCATED_LENGTH
  }

  predicate MatchesShape(s: string) {
    HasLength(s) && Spelled(s)
  }

  function Described(value: string, payload: seq<Byte>): Crid
    requires payload != []
  {
    var version, digest := payload[0], payload[1..];
    match Registered(version)
    case Some(row) =>
      if row.digestLength == |digest| then Crid(value, version, true, row.active, row.environment, digest)
      else Crid(value, version, false, false, UnknownEnvironment, digest)
    case None => Crid(value, version, false, false, UnknownEnvironment, digest)
  }

  function Parse(s: string): Result<Crid, Rejection> {
    if !Spelled(s) then Failure(Charset)
    else if !HasLength(s) then Failure(Length)
    else
      var data := Bytes(Ungroup(s));
      if Decode(s).None? || Encode(data) != s then Failure(NonCanonical)
      else
        var n := |data| - CHECKSUM_LENGTH;
        var payload, checksum := data[..n], data[n..];
        if checksum != BigEndian(Checksum(payload)) then Failure(BadChecksum)
        else if payload[0] == ZERO_BYTE then Failure(ForbiddenVersion)
        else Success(Described(s, payload))
  }

  // --- What is accepted -------------------------------------------------------

  function Codeword(payload: seq<Byte>): seq<Byte> {
    payload + BigEndian(Checksum(payload))
  }

  /** How the design spells a payload. */
  function Spell(payload: seq<Byte>): string {
    Encode(Codeword(payload))
  }

  predicate IsPayload(payload: seq<Byte>) {
    |payload| in {1 + FULL_DIGEST_LENGTH, 1 + TRUNCATED_DIGEST_LENGTH} && payload[0] != ZERO_BYTE
  }

  lemma ShapeDecodes(s: string)
    requires MatchesShape(s)
    ensures Decode(s).Some?
    ensures |Decode(s).value| == if |s| == FULL_LENGTH then 37 else 29
  {
    hide Spelled;
  }

  lemma SpellDecodes(payload: seq<Byte>)
    ensures Decode(Spell(payload)) == Some(Codeword(payload))
    ensures Spelled(Spell(payload)) && |Spell(payload)| == (8 * (|payload| + 4) + 4) / 5
  {
    hide Checksum, BigEndian, Encode, Decode;
    DecodeEncode(Codeword(payload));
    EncodeShape(Codeword(payload));
  }

  lemma EncodeShape(data: seq<Byte>)
    ensures Spelled(Encode(data)) && |Encode(data)| == (8 * |data| + 4) / 5
  {
    hide Group, Spelled;
    GroupRoundTrip(Flatten(data));
  }

  lemma SpelledIsAccepted(payload: seq<Byte>)
    requires IsPayload(payload)
    ensures Parse(Spell(payload)) == Success(Described(Spell(payload), payload))
  {
    hide Checksum, BigEndian, Encode, Spelled, Spell, Described;
    var s := Spell(payload);
    SpellDecodes(payload);
    assert s == Encode(Codeword(payload)) by { SpellIsEncode(payload); }
    assert Codeword(payload)[..|payload|] == payload;
    assert Codeword(payload)[|payload|..] == BigEndian(Checksum(payload));
  }

  lemma SpellIsEncode(payload: seq<Byte>)
    ensures Spell(payload) == Encode(Codeword(payload))
  {
    hide Checksum, BigEndian, Encode;
  }

  function PayloadOf(c: Crid): seq<Byte> {
    [c.version] + c.digest
  }

  lemma AcceptedIsSpelled(s: string)
    requires Parse(s).Success?
    ensures var payload := PayloadOf(Parse(s).value);
            IsPayload(payload) && s == Spell(payload) && Parse(s).value == Described(s, payload)
  {
    hide Checksum, BigEndian, Encode, Spelled, Registered;
    ShapeDecodes(s);
    var data := Decode(s).value;
    var n := |data| - 4;
    var payload := data[..n];
    assert data == payload + data[n..];
    assert [payload[0]] + payload[1..] == payload;
  }

  /** The gate accepts exactly the design's spellings. */
  lemma AcceptedIffSpelled(s: string)
    ensures Parse(s).Success? <==> exists payload :: IsPayload(payload) && s == Spell(payload)
  {
    hide Parse, Spell;
    if Parse(s).Success? {
      AcceptedIsSpelled(s);
    }
    if payload :| IsPayload(payload) && s == Spell(payload) {
      SpelledIsAccepted(payload);
    }
  }

  /** No two accepted strings stand for one version and digest. */
  lemma AcceptedIsUnique(s: string, t: string)
    requires Parse(s).Success? && Parse(t).Success?
    requires Parse(s).value.version == Parse(t).value.version && Parse(s).value.digest == Parse(t).value.digest
    ensures s == t
  {
    hide Parse, Spell;
    AcceptedIsSpelled(s);
    AcceptedIsSpelled(t);
  }

  // --- Why the rest is refused ------------------------------------------------

  /** Bits of the last character that stand for nothing. */
  function Spare(s: string): nat
    requires HasLength(s)
  {
    Index(s[|s| - 1]) % if |s| == FULL_LENGTH then 16 else 8
  }

  lemma LowBits(n: nat)
    requires n < 32
    ensures n % 8 == 0 <==> !Binary(n)[2] && !Binary(n)[3] && !Binary(n)[4]
    ensures n % 16 == 0 <==> n % 8 == 0 && !Binary(n)[1]
  {
  }

  lemma CanonicalIffNoSpareBits(s: string)
    requires MatchesShape(s)
    ensures Encode(Bytes(Ungroup(s))) == s <==> Spare(s) == 0
  {
    hide Spelled, Encode, Binary, Index;
    ShapeDecodes(s);
    CanonicalIffSpareBitsAreZero(s);
    var last, bits := |s| - 1, Ungroup(s);
    LowBits(Index(s[last]));
    UngroupAt(s, last, 1);
    UngroupAt(s, last, 2);
    UngroupAt(s, last, 3);
    UngroupAt(s, last, 4);
    assert QuintetOf(s[last]) == Binary(Index(s[last]));
    assert Spare(s) == 0 <==>
      !bits[5 * last + 2] && !bits[5 * last + 3] && !bits[5 * last + 4] && (|s| == FULL_LENGTH ==> !bits[5 * last + 1]);
  }

  /** The only payload a string can spell is the one it decodes to. */
  lemma SpellsIffItDecodes(s: string, payload: seq<Byte>)
    requires MatchesShape(s) && |payload| in {25, 33}
    ensures var data := Bytes(Ungroup(s));
            var n := |data| - 4;
            && |data| in {29, 37}
            && (s == Spell(payload) <==>
                Encode(data) == s && payload == data[..n] && data[n..] == BigEndian(Checksum(payload)))
  {
    hide Spelled, Encode, Checksum, BigEndian, Spell;
    ShapeDecodes(s);
    SpellDecodes(payload);
    SpellIsEncode(payload);
    var data := Bytes(Ungroup(s));
    var n := |data| - 4;
    assert data == data[..n] + data[n..];
    if s == Spell(payload) {
      assert data == Codeword(payload);
    }
  }

  /** Five closed classes of refusal, each with its exact condition: what is
      left, a canonical spelling of no codeword, is a bad checksum. */
  lemma RejectedExactly(s: string)
    ensures Parse(s) == Failure(Charset) <==> exists i :: 0 <= i < |s| && !InAlphabet(s[i])
    ensures Parse(s) == Failure(Length) <==> Spelled(s) && |s| != 47 && |s| != 60
    ensures Parse(s) == Failure(NonCanonical) <==> MatchesShape(s) && Spare(s) != 0
    ensures Parse(s) == Failure(ForbiddenVersion) <==>
            exists payload :: |payload| in {25, 33} && payload[0] == ZERO_BYTE && s == Spell(payload)
    ensures Parse(s) == Failure(BadChecksum) <==>
            && MatchesShape(s) && Spare(s) == 0
            && forall payload :: |payload| in {25, 33} ==> s != Spell(payload)
  {
    hide Encode, Checksum, BigEndian, Spell, Described, InAlphabet, Index;
    forall payload | |payload| in {25, 33} && s == Spell(payload)
      ensures MatchesShape(s)
    {
      SpellDecodes(payload);
    }
    if MatchesShape(s) {
      CanonicalIffNoSpareBits(s);
      ShapeDecodes(s);
      forall payload | |payload| in {25, 33}
        ensures s == Spell(payload) ==>
                var data := Bytes(Ungroup(s));
                var n := |data| - 4;
                Encode(data) == s && payload == data[..n] && data[n..] == BigEndian(Checksum(payload))
      {
        SpellsIffItDecodes(s, payload);
      }
      var data := Bytes(Ungroup(s));
      SpellsIffItDecodes(s, data[..|data| - 4]);
    }
  }

  // --- Typing errors ----------------------------------------------------------

  /** The codeword, bit by bit, is how the string starts. */
  lemma SpellBits(payload: seq<Byte>)
    ensures var bits := Ungroup(Spell(payload));
            var n := 8 * |payload|;
            && n + 32 <= |bits|
            && (forall k | 0 <= k < n :: bits[k] == payload[k / 8][k % 8])
            && (forall i | 0 <= i < 32 :: Checksum(payload)[i] == bits[n + 31 - i])
            && (forall k | n + 32 <= k < |bits| :: !bits[k])
  {
    hide Group, Ungroup, Spelled, Checksum, BigEndian;
    var word := Codeword(payload);
    var n := 8 * |payload|;
    GroupRoundTrip(Flatten(word));
    forall i | 0 <= i < 32
      ensures Flatten(word)[n + 31 - i] == Checksum(payload)[i]
    {
      var k := 31 - i;
      assert word[(n + k) / 8] == BigEndian(Checksum(payload))[k / 8];
      assert BigEndian(Checksum(payload))[k / 8][k % 8] == Checksum(payload)[31 - k];
    }
  }

  /** Two spellings that agree outside a stretch of characters carry bits that
      agree outside the matching stretch of bits. */
  lemma SameOutside(s: string, t: string, from: nat, to: nat, k: nat)
    requires |s| == |t| && k < 5 * |s| && !(5 * from <= k < 5 * to)
    requires forall i | 0 <= i < |s| && !(from <= i < to) :: s[i] == t[i]
    ensures Ungroup(s)[k] == Ungroup(t)[k]
  {
    hide QuintetOf;
    UngroupAt(s, k / 5, k % 5);
    UngroupAt(t, k / 5, k % 5);
    assert 5 * (k / 5) + k % 5 == k;
  }

  predicate AgreeOutside(s: string, t: string, from: nat, to: nat) {
    |s| == |t| && forall i | 0 <= i < |s| && !(from <= i < to) :: s[i] == t[i]
  }

  lemma BitsAgreeOutside(s: string, t: string, from: nat, to: nat)
    requires AgreeOutside(s, t, from, to)
    ensures forall k | 0 <= k < 5 * |s| && !(5 * from <= k < 5 * to) :: Ungroup(s)[k] == Ungroup(t)[k]
  {
    forall k | 0 <= k < 5 * |s| && !(5 * from <= k < 5 * to)
      ensures Ungroup(s)[k] == Ungroup(t)[k]
    {
      SameOutside(s, t, from, to, k);
    }
  }

  lemma SameByte(x: Byte, y: Byte)
    requires forall b | 0 <= b < 8 :: x[b] == y[b]
    ensures x == y
  {
  }

  /** Up to five neighbouring characters of the payload part touch at most four
      bytes, so no change to them leaves the checksum alone. */
  lemma PayloadBurstIsSeen(p: seq<Byte>, q: seq<Byte>, from: nat, to: nat)
    requires |p| == |q| && 4 <= |p| && from < to <= from + 5 && 5 * to <= 8 * |p|
    requires AgreeOutside(Spell(p), Spell(q), from, to)
    ensures p == q
  {
    hide Spell, Checksum, Ungroup;
    var s, t := Ungroup(Spell(p)), Ungroup(Spell(q));
    SpellBits(p);
    SpellBits(q);
    BitsAgreeOutside(Spell(p), Spell(q), from, to);
    forall i | 0 <= i < 32
      ensures Checksum(p)[i] == Checksum(q)[i]
    {
      var k := 8 * |p| + 31 - i;
      assert s[k] == t[k];
    }
    var first := 5 * from / 8;
    forall j | 0 <= j < |p| && !(first <= j < first + 4)
      ensures p[j] == q[j]
    {
      forall b | 0 <= b < 8
        ensures p[j][b] == q[j][b]
      {
        var k := 8 * j + b;
        assert k / 8 == j && k % 8 == b;
        assert s[k] == t[k];
      }
      SameByte(p[j], q[j]);
    }
    if p != q {
      BurstIsSeen(p, q, if first + 4 <= |p| then first else |p| - 4);
    }
  }

  /** The one character that holds both payload and checksum bits, in the long
      form: four payload bits and the top checksum bit. */
  lemma StraddlingCharacterIsSeen(p: seq<Byte>, q: seq<Byte>)
    requires |p| == |q| == 33 && AgreeOutside(Spell(p), Spell(q), 52, 53)
    ensures p == q
  {
    hide Spell, Checksum, Ungroup;
    var s, t := Ungroup(Spell(p)), Ungroup(Spell(q));
    SpellBits(p);
    SpellBits(q);
    BitsAgreeOutside(Spell(p), Spell(q), 52, 53);
    forall i | 0 <= i < 31
      ensures Checksum(p)[i] == Checksum(q)[i]
    {
      assert s[295 - i] == t[295 - i];
    }
    forall j, b | 0 <= j < 33 && 0 <= b < 8 && 8 * j + b < 260
      ensures p[j][b] == q[j][b]
    {
      var k := 8 * j + b;
      assert k / 8 == j && k % 8 == b;
      assert s[k] == t[k];
    }
    forall j | 0 <= j < 32
      ensures p[j] == q[j]
    {
      SameByte(p[j], q[j]);
    }
    LastNibbleIsSeen(p, q);
  }

  /** Characters past the payload never decide what the payload is. */
  lemma TrailerHoldsNoPayload(p: seq<Byte>, q: seq<Byte>, from: nat, to: nat)
    requires |p| == |q| && 8 * |p| <= 5 * from && AgreeOutside(Spell(p), Spell(q), from, to)
    ensures p == q
  {
    hide Spell, Checksum, Ungroup;
    var s, t := Ungroup(Spell(p)), Ungroup(Spell(q));
    SpellBits(p);
    SpellBits(q);
    BitsAgreeOutside(Spell(p), Spell(q), from, to);
    forall k | 0 <= k < 8 * |p|
      ensures p[k / 8][k % 8] == q[k / 8][k % 8]
    {
      assert s[k] == t[k];
    }
    SameBits(p, q);
  }

  lemma OneCharacterApart(p: seq<Byte>, q: seq<Byte>, i: nat)
    requires |p| == |q| && |p| in {25, 33} && AgreeOutside(Spell(p), Spell(q), i, i + 1)
    ensures p == q
  {
    hide Spell, AgreeOutside;
    if 5 * (i + 1) <= 8 * |p| {
      PayloadBurstIsSeen(p, q, i, i + 1);
    } else if 8 * |p| <= 5 * i {
      TrailerHoldsNoPayload(p, q, i, i + 1);
    } else {
      StraddlingCharacterIsSeen(p, q);
    }
  }

  lemma NeighbourSpellsNothing(s: string, i: nat, c: char, q: seq<Byte>)
    requires Parse(s).Success? && i < |s| && c != s[i] && |q| in {25, 33}
    ensures s[i := c] != Spell(q)
  {
    hide Parse, Spell, Described, Codeword, Spelled;
    var p := PayloadOf(Parse(s).value);
    AcceptedIsSpelled(s);
    if s[i := c] == Spell(q) {
      SpellDecodes(p);
      SpellDecodes(q);
      OneCharacterApart(p, q, i);
    }
  }

  /** Mistyping any one character of an accepted identifier is always caught,
      as a foreign character, as spare bits in the last place, or else by the
      checksum. */
  lemma OneWrongCharacterIsRejected(s: string, i: nat, c: char)
    requires Parse(s).Success? && i < |s| && c != s[i]
    ensures var t := s[i := c];
            && |t| in {47, 60}
            && Parse(t) == Failure(if !InAlphabet(c) then Charset
                                   else if i == |s| - 1 && Spare(t) != 0 then NonCanonical
                                   else BadChecksum)
  {
    hide Parse, Spell, InAlphabet, Index;
    var t := s[i := c];
    AcceptedHasShape(s);
    RejectedExactly(t);
    if InAlphabet(c) {
      forall q | |q| in {25, 33}
        ensures t != Spell(q)
      {
        NeighbourSpellsNothing(s, i, c, q);
      }
      assert i < |s| - 1 ==> Spare(t) == Spare(s);
      assert MatchesShape(t);
      assert Parse(t) == Failure(NonCanonical) <==> Spare(t) != 0;
    } else {
      assert !InAlphabet(t[i]);
    }
  }

  lemma AcceptedHasShape(s: string)
    requires Parse(s).Success?
    ensures MatchesShape(s) && Spare(s) == 0
  {
    hide Encode, Spelled, Described, Index;
    CanonicalIffNoSpareBits(s);
  }

  /** Nor does any change to up to five neighbouring payload characters pass. */
  lemma FiveWrongCharactersAreRejected(s: string, t: string, from: nat)
    requires Parse(s).Success? && s != t && AgreeOutside(s, t, from, from + 5)
    requires 5 * (from + 5) <= if |s| == FULL_LENGTH then 264 else 200
    ensures Parse(t).Failure?
  {
    hide Parse, Spell, AgreeOutside;
    AcceptedIsSpelled(s);
    if Parse(t).Success? {
      AcceptedIsSpelled(t);
      var p, q := PayloadOf(Parse(s).value), PayloadOf(Parse(t).value);
      SpellDecodes(p);
      SpellDecodes(q);
      assert |s| == |t| by { LengthsAgree(s, t, from, from + 5); }
      PayloadBurstIsSeen(p, q, from, from + 5);
    }
  }

  lemma LengthsAgree(s: string, t: string, from: nat, to: nat)
    requires AgreeOutside(s, t, from, to)
    ensures |s| == |t|
  {
  }

  // --- Keys -------------------------------------------------------------------

  const DOMAIN_PREFIX := "NHP-QURL-CRID-V1"

  function Ascii(s: string): (data: seq<Byte>)
    ensures |data| == |s|
  {
    if s == "" then [] else [Octet(s[0] as nat % 256)] + Ascii(s[1..])
  }

  type Digest = d: seq<Byte> | |d| == FULL_DIGEST_LENGTH witness [
    ZERO_BYTE, ZERO_BYTE, ZERO_BYTE, ZERO_BYTE, ZERO_BYTE, ZERO_BYTE, ZERO_BYTE, ZERO_BYTE,
    ZERO_BYTE, ZERO_BYTE, ZERO_BYTE, ZERO_BYTE, ZERO_BYTE, ZERO_BYTE, ZERO_BYTE, ZERO_BYTE,
    ZERO_BYTE, ZERO_BYTE, ZERO_BYTE, ZERO_BYTE, ZERO_BYTE, ZERO_BYTE, ZERO_BYTE, ZERO_BYTE,
    ZERO_BYTE, ZERO_BYTE, ZERO_BYTE, ZERO_BYTE, ZERO_BYTE, ZERO_BYTE, ZERO_BYTE, ZERO_BYTE]

  function Message(spki: seq<Byte>): seq<Byte> {
    Ascii(DOMAIN_PREFIX) + [ZERO_BYTE] + spki
  }

  function KeyMatches(s: string, spki: seq<Byte>, sha256: seq<Byte> -> Digest): Result<bool, Rejection> {
    var c :- Parse(s);
    Success(c.digest <= sha256(Message(spki)))
  }

  /** The identifier of a key, at a version and digest length. */
  function Derive(spki: seq<Byte>, version: Byte, length: nat, sha256: seq<Byte> -> Digest): string
    requires length <= FULL_DIGEST_LENGTH
  {
    Spell([version] + sha256(Message(spki))[..length])
  }

  /** Comparing digest prefixes is deriving again and comparing strings. */
  lemma KeyMatchesIffDerivedAgain(s: string, spki: seq<Byte>, sha256: seq<Byte> -> Digest)
    requires Parse(s).Success?
    ensures var c := Parse(s).value;
            && |c.digest| <= FULL_DIGEST_LENGTH
            && KeyMatches(s, spki, sha256) == Success(Derive(spki, c.version, |c.digest|, sha256) == s)
  {
    hide Parse, Spell, Described, Message, Checksum;
    AcceptedIsSpelled(s);
    var c := Parse(s).value;
    var prefix := sha256(Message(spki))[..|c.digest|];
    var held, derived := PayloadOf(c), [c.version] + prefix;
    assert held[1..] == c.digest && derived[1..] == prefix;
    assert c.digest <= sha256(Message(spki)) <==> c.digest == prefix;
    if Spell(held) == Spell(derived) {
      SpellDecodes(held);
      SpellDecodes(derived);
      assert Codeword(held)[..|held|] == held && Codeword(derived)[..|held|] == derived;
    }
  }

  lemma FirstCharacter(payload: seq<Byte>)
    requires payload != []
    ensures |Spell(payload)| > 0 && QuintetOf(Spell(payload)[0]) == payload[0][..5]
  {
    hide Spell, Checksum, QuintetOf, Codeword, Spelled, Decode;
    var s := Spell(payload);
    SpellBits(payload);
    SpellDecodes(payload);
    var bits, q := Ungroup(s), QuintetOf(s[0]);
    forall j | 0 <= j < 5
      ensures q[j] == payload[0][j]
    {
      UngroupAt(s, 0, j);
      assert bits[j] == payload[j / 8][j % 8];
    }
    assert q == payload[0][..5];
  }

  lemma RegisteredBits(version: Byte)
    requires Registered(version).Some?
    ensures !version[1] && !version[2] && !version[3] && !version[4]
    ensures version[0] <==> Registered(version).value.environment == Test
    ensures Registered(version).value.environment != UnknownEnvironment
  {
  }

  lemma LetterOf(q: Quintet, c: char)
    requires InAlphabet(c) && QuintetOf(c) == q && !q[1] && !q[2] && !q[3] && !q[4]
    ensures c == if q[0] then 'q' else 'a'
  {
    hide InAlphabet, QuintetOf;
    QuintetRoundTrip(c);
    assert Number(q) == if q[0] then 16 else 0;
  }

  /** Registered production identifiers start with `a`, test ones with `q`, and
      the active ones are those of the full length. */
  lemma FirstLetter(s: string)
    requires Parse(s).Success? && Parse(s).value.known
    ensures |s| > 0 && s[0] == if Parse(s).value.environment == Test then 'q' else 'a'
    ensures Parse(s).value.active <==> |s| == FULL_LENGTH
  {
    hide Parse, Spell, QuintetOf, InAlphabet, Octet, Codeword, Decode;
    var c := Parse(s).value;
    var payload := PayloadOf(c);
    AcceptedIsSpelled(s);
    SpellDecodes(payload);
    FirstCharacter(payload);
    RegisteredBits(c.version);
    LetterOf(c.version[..5], s[0]);
  }
}
