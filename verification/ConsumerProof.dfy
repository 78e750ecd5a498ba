/** The byte string a consumer proof hashes, and why it pins every field. */
module ConsumerProof {
  import opened Wrappers

  type Octet = n: nat | n < 256
  type Bytes = seq<Octet>

  const MAX_FIELD := 1024
  const MAX_NUMBER := 0x1F_FFFF_FFFF_FFFF
  const PREFIX := Ascii("qurl-consumer-proof-v1") + [0]

  /** Text fields hold the bytes of their UTF-8 form. */
  datatype Proof = Proof(
    purpose: Bytes,
    crid: Bytes,
    credentialKind: Bytes,
    credentialID: Bytes,
    credentialPublicKey: Bytes,
    authenticatedPeerKey: Bytes,
    admissionPublicKey: Bytes,
    email: Bytes,
    discloseEmail: bool,
    invitationID: Bytes,
    nonce: Bytes,
    policyVersion: int,
    invitationVersion: int,
    grantVersion: int,
    issuedAt: int)

  function Ascii(s: string): (b: Bytes)
    ensures |b| == |s|
  {
    if s == "" then [] else [s[0] as nat % 256] + Ascii(s[1..])
  }

  predicate IsVersion(n: int) {
    0 <= n <= MAX_NUMBER
  }

  /** The value of an unpadded base64url digit. */
  function Digit(c: Octet): Option<nat> {
    var ch := c as char;
    if 'A' <= ch <= 'Z' then Some(c - 65)
    else if 'a' <= ch <= 'z' then Some(c - 97 + 26)
    else if '0' <= ch <= '9' then Some(c - 48 + 52)
    else if ch == '-' then Some(62)
    else if ch == '_' then Some(63)
    else None
  }

  /** The one unpadded base64url spelling of 32 bytes: 43 digits, of which the
      last stands for four bits. */
  predicate IsNonce(b: Bytes) {
    && |b| == 43
    && (forall i | 0 <= i < 43 :: Digit(b[i]).Some?)
    && Digit(b[42]).value % 4 == 0
  }

  predicate IsPurpose(b: Bytes) {
    b == Ascii("info") || b == Ascii("enroll") || b == Ascii("admit")
  }

  function FormatBool(b: bool): Bytes {
    if b then Ascii("true") else Ascii("false")
  }

  function Fields(p: Proof): (fs: seq<Bytes>)
    ensures |fs| == 11
  {
    [p.purpose, p.crid, p.credentialKind, p.credentialID, p.credentialPublicKey, p.authenticatedPeerKey,
     p.admissionPublicKey, p.email, FormatBool(p.discloseEmail), p.invitationID, p.nonce]
  }

  function Numbers(p: Proof): (ns: seq<int>)
    ensures |ns| == 4
  {
    [p.policyVersion, p.invitationVersion, p.grantVersion, p.issuedAt]
  }

  predicate InRange(ns: seq<int>) {
    forall i | 0 <= i < |ns| :: IsVersion(ns[i])
  }

  predicate Short(fs: seq<Bytes>) {
    forall i | 0 <= i < |fs| :: |fs[i]| <= MAX_FIELD
  }

  predicate Accepted(p: Proof) {
    InRange(Numbers(p)) && p.issuedAt >= 1 && IsPurpose(p.purpose) && IsNonce(p.nonce) && Short(Fields(p))
  }

  // --- Encoding -----------------------------------------------------------------

  function Pow256(width: nat): (p: nat)
    ensures p >= 1
  {
    if width == 0 then 1 else 256 * Pow256(width - 1)
  }

  function BigEndian(n: nat, width: nat): (b: Bytes)
    ensures |b| == width
    decreases width
  {
    if width == 0 then [] else BigEndian(n / 256, width - 1) + [n % 256]
  }

  function Prefixed(fs: seq<Bytes>): Bytes {
    if fs == [] then [] else BigEndian(|fs[0]|, 4) + fs[0] + Prefixed(fs[1..])
  }

  function Fixed(ns: seq<int>): Bytes
    requires InRange(ns)
  {
    if ns == [] then [] else BigEndian(ns[0], 8) + Fixed(ns[1..])
  }

  function Preimage(p: Proof): Bytes
    requires Accepted(p)
  {
    PREFIX + Prefixed(Fields(p)) + Fixed(Numbers(p))
  }

  /** The running hash takes the fields one by one, up to one that is too long. */
  method WriteFields(h0: Bytes, fields: seq<Bytes>) returns (h: Bytes, ok: bool)
    ensures ok <==> Short(fields)
    ensures ok ==> h == h0 + Prefixed(fields)
  {
    hide BigEndian;
    h := h0;
    for i := 0 to |fields|
      invariant Short(fields[..i])
      invariant h + Prefixed(fields[i..]) == h0 + Prefixed(fields)
    {
      if |fields[i]| > MAX_FIELD {
        return h, false;
      }
      assert fields[i..][1..] == fields[i + 1..];
      h := h + BigEndian(|fields[i]|, 4);
      h := h + fields[i];
    }
    assert fields[..|fields|] == fields;
    ok := true;
  }

  method WriteNumbers(h0: Bytes, numbers: seq<int>) returns (h: Bytes)
    requires InRange(numbers)
    ensures h == h0 + Fixed(numbers)
  {
    hide BigEndian;
    h := h0;
    for i := 0 to |numbers|
      invariant h + Fixed(numbers[i..]) == h0 + Fixed(numbers)
    {
      assert numbers[i..][1..] == numbers[i + 1..];
      h := h + BigEndian(numbers[i], 8);
    }
  }

  lemma NumbersInRange(p: Proof)
    ensures InRange(Numbers(p)) <==>
            IsVersion(p.policyVersion) && IsVersion(p.invitationVersion) && IsVersion(p.grantVersion) && IsVersion(p.issuedAt)
  {
    var ns := Numbers(p);
    assert ns[0] == p.policyVersion && ns[1] == p.invitationVersion && ns[2] == p.grantVersion && ns[3] == p.issuedAt;
  }

  method Challenge(proof: Option<Proof>, sha256: Bytes -> Bytes) returns (r: Option<Bytes>)
    ensures r == if proof.Some? && Accepted(proof.value) then Some(sha256(Preimage(proof.value))) else None
  {
    hide IsPurpose, IsNonce, Prefixed, Fixed, Fields, Numbers, InRange, Short, Ascii;
    if proof.None? {
      return None;
    }
    var p := proof.value;
    NumbersInRange(p);
    if !IsVersion(p.policyVersion) || !IsVersion(p.invitationVersion) || !IsVersion(p.grantVersion)
       || p.issuedAt < 1 || !IsVersion(p.issuedAt) {
      return None;
    }
    if !IsPurpose(p.purpose) || !IsNonce(p.nonce) {
      return None;
    }
    var h, ok := WriteFields(PREFIX, Fields(p));
    if !ok {
      return None;
    }
    h := WriteNumbers(h, Numbers(p));
    return Some(sha256(h));
  }

  // --- Injectivity ------------------------------------------------------------------

  lemma {:induction false} BigEndianIsInjective(m: nat, n: nat, width: nat)
    requires m < Pow256(width) && n < Pow256(width) && BigEndian(m, width) == BigEndian(n, width)
    ensures m == n
    decreases width
  {
    if width > 0 {
      var x, y := BigEndian(m / 256, width - 1), BigEndian(n / 256, width - 1);
      assert (x + [m % 256])[width - 1] == m % 256 && (y + [n % 256])[width - 1] == n % 256;
      assert (x + [m % 256])[..width - 1] == x && (y + [n % 256])[..width - 1] == y;
      BigEndianIsInjective(m / 256, n / 256, width - 1);
    }
  }

  lemma SplitEqual(a: Bytes, b: Bytes, x: Bytes, y: Bytes)
    requires |a| == |b| && a + x == b + y
    ensures a == b && x == y
  {
    assert (a + x)[..|a|] == a && (b + y)[..|a|] == b;
    assert (a + x)[|a|..] == x && (b + y)[|a|..] == y;
  }

  lemma LengthIsRead(m: nat, n: nat)
    requires m <= MAX_FIELD && n <= MAX_FIELD && BigEndian(m, 4) == BigEndian(n, 4)
    ensures m == n
  {
    assert Pow256(1) == 256 && Pow256(2) == 256 * Pow256(1) && Pow256(3) == 256 * Pow256(2);
    BigEndianIsInjective(m, n, 4);
  }

  lemma NumberIsRead(m: nat, n: nat)
    requires m <= MAX_NUMBER && n <= MAX_NUMBER && BigEndian(m, 8) == BigEndian(n, 8)
    ensures m == n
  {
    assert Pow256(1) == 256 && Pow256(2) == 0x1_0000 && Pow256(3) == 0x100_0000 && Pow256(4) == 0x1_0000_0000;
    assert Pow256(5) == 0x100_0000_0000 && Pow256(6) == 0x1_0000_0000_0000 && Pow256(7) == 0x100_0000_0000_0000;
    BigEndianIsInjective(m, n, 8);
  }

  /** Length prefixes make the fields, and what follows them, readable back. */
  lemma {:induction false} PrefixedIsInjective(fs: seq<Bytes>, gs: seq<Bytes>, x: Bytes, y: Bytes)
    requires |fs| == |gs| && Short(fs) && Short(gs) && Prefixed(fs) + x == Prefixed(gs) + y
    ensures fs == gs && x == y
    decreases |fs|
  {
    hide BigEndian;
    if fs == [] {
      SplitEqual([], [], x, y);
    } else {
      var f, g := fs[0], gs[0];
      var restF, restG := Prefixed(fs[1..]) + x, Prefixed(gs[1..]) + y;
      assert Prefixed(fs) + x == BigEndian(|f|, 4) + (f + restF);
      assert Prefixed(gs) + y == BigEndian(|g|, 4) + (g + restG);
      SplitEqual(BigEndian(|f|, 4), BigEndian(|g|, 4), f + restF, g + restG);
      LengthIsRead(|f|, |g|);
      SplitEqual(f, g, restF, restG);
      PrefixedIsInjective(fs[1..], gs[1..], x, y);
      assert fs == [f] + fs[1..] && gs == [g] + gs[1..];
    }
  }

  lemma {:induction false} FixedIsInjective(ms: seq<int>, ns: seq<int>)
    requires |ms| == |ns| && InRange(ms) && InRange(ns) && Fixed(ms) == Fixed(ns)
    ensures ms == ns
    decreases |ms|
  {
    hide BigEndian;
    if ms != [] {
      SplitEqual(BigEndian(ms[0], 8), BigEndian(ns[0], 8), Fixed(ms[1..]), Fixed(ns[1..]));
      NumberIsRead(ms[0], ns[0]);
      FixedIsInjective(ms[1..], ns[1..]);
      assert ms == [ms[0]] + ms[1..] && ns == [ns[0]] + ns[1..];
    }
  }

  /** Two accepted proofs that hash the same bytes are the same proof. */
  lemma PreimageDeterminesProof(p: Proof, q: Proof)
    requires Accepted(p) && Accepted(q) && Preimage(p) == Preimage(q)
    ensures p == q
  {
    hide Prefixed, Fixed, Fields, Numbers, Ascii, IsPurpose, IsNonce;
    var tailP, tailQ := Prefixed(Fields(p)) + Fixed(Numbers(p)), Prefixed(Fields(q)) + Fixed(Numbers(q));
    assert Preimage(p) == PREFIX + tailP && Preimage(q) == PREFIX + tailQ;
    SplitEqual(PREFIX, PREFIX, Prefixed(Fields(p)) + Fixed(Numbers(p)), Prefixed(Fields(q)) + Fixed(Numbers(q)));
    PrefixedIsInjective(Fields(p), Fields(q), Fixed(Numbers(p)), Fixed(Numbers(q)));
    FixedIsInjective(Numbers(p), Numbers(q));
    SameProof(p, q);
  }

  lemma SameProof(p: Proof, q: Proof)
    requires Fields(p) == Fields(q) && Numbers(p) == Numbers(q)
    ensures p == q
  {
    var a, b, m, n := Fields(p), Fields(q), Numbers(p), Numbers(q);
    assert a[0] == b[0] && a[1] == b[1] && a[2] == b[2] && a[3] == b[3] && a[4] == b[4] && a[5] == b[5];
    assert a[6] == b[6] && a[7] == b[7] && a[8] == b[8] && a[9] == b[9] && a[10] == b[10];
    assert m[0] == n[0] && m[1] == n[1] && m[2] == n[2] && m[3] == n[3];
    assert |FormatBool(true)| == 4 && |FormatBool(false)| == 5;
  }

  // --- Which byte stands where -----------------------------------------------------

  /** A length in front of what it measures, its high byte first. */
  function Framed(f: Bytes): Bytes
    requires |f| <= MAX_FIELD
  {
    [0, 0, |f| / 256, |f| % 256] + f
  }

  /** A number in eight bytes, its high byte first. */
  function EightBytes(n: nat): Bytes
    requires n <= MAX_NUMBER
  {
    [n / 0x100_0000_0000_0000, n / 0x1_0000_0000_0000 % 256, n / 0x100_0000_0000 % 256, n / 0x1_0000_0000 % 256,
     n / 0x100_0000 % 256, n / 0x1_0000 % 256, n / 0x100 % 256, n % 256]
  }

  lemma FourBytes(n: nat)
    requires n <= MAX_FIELD
    ensures BigEndian(n, 4) == [0, 0, n / 256, n % 256]
  {
    assert BigEndian(n, 4) == BigEndian(n / 256, 3) + [n % 256];
    assert BigEndian(n / 256, 3) == BigEndian(n / 256 / 256, 2) + [n / 256];
    assert BigEndian(0, 2) == BigEndian(0, 1) + [0] && BigEndian(0, 1) == [] + [0];
  }

  lemma Quotients(n: nat)
    ensures n / 0x100 / 0x100 == n / 0x1_0000 && n / 0x1_0000 / 0x100 == n / 0x100_0000
    ensures n / 0x100_0000 / 0x100 == n / 0x1_0000_0000 && n / 0x1_0000_0000 / 0x100 == n / 0x100_0000_0000
    ensures n / 0x100_0000_0000 / 0x100 == n / 0x1_0000_0000_0000
    ensures n / 0x1_0000_0000_0000 / 0x100 == n / 0x100_0000_0000_0000
  {
  }

  lemma BigEndianStep(n: nat, q: nat, width: nat)
    requires width > 0 && q == n / 256
    ensures BigEndian(n, width) == BigEndian(q, width - 1) + [n % 256]
  {
  }

  lemma EightBytesAreBigEndian(n: nat)
    requires n <= MAX_NUMBER
    ensures BigEndian(n, 8) == EightBytes(n)
  {
    Quotients(n);
    var n1, n2, n3, n4 := n / 0x100, n / 0x1_0000, n / 0x100_0000, n / 0x1_0000_0000;
    var n5, n6, n7 := n / 0x100_0000_0000, n / 0x1_0000_0000_0000, n / 0x100_0000_0000_0000;
    BigEndianStep(n, n1, 8);
    BigEndianStep(n1, n2, 7);
    BigEndianStep(n2, n3, 6);
    BigEndianStep(n3, n4, 5);
    BigEndianStep(n4, n5, 4);
    BigEndianStep(n5, n6, 3);
    BigEndianStep(n6, n7, 2);
    BigEndianStep(n7, 0, 1);
    assert BigEndian(0, 0) == [];
  }

  lemma OneField(f: Bytes, rest: seq<Bytes>)
    requires |f| <= MAX_FIELD
    ensures Prefixed([f] + rest) == Framed(f) + Prefixed(rest)
  {
    hide BigEndian;
    FourBytes(|f|);
    assert ([f] + rest)[1..] == rest;
  }

  lemma OneNumber(n: int, rest: seq<int>)
    requires InRange([n] + rest)
    ensures InRange(rest) && IsVersion(n) && Fixed([n] + rest) == EightBytes(n) + Fixed(rest)
  {
    hide BigEndian, EightBytes;
    var all := [n] + rest;
    assert all[0] == n && all[1..] == rest;
    assert forall i | 0 <= i < |rest| :: rest[i] == all[i + 1];
    EightBytesAreBigEndian(n);
  }

  lemma {:induction false} AsciiAt(s: string, i: nat)
    requires i < |s|
    ensures Ascii(s)[i] == s[i] as nat % 256
    decreases i
  {
    if i > 0 {
      AsciiAt(s[1..], i - 1);
    }
  }

  lemma AsciiIs(s: string, codes: Bytes)
    requires |s| == |codes| && forall i | 0 <= i < |s| :: s[i] as int == codes[i]
    ensures Ascii(s) == codes
  {
    forall i | 0 <= i < |s|
      ensures Ascii(s)[i] == codes[i]
    {
      AsciiAt(s, i);
    }
  }

  lemma TagBytes()
    ensures PREFIX == [113, 117, 114, 108, 45, 99, 111, 110, 115, 117, 109, 101, 114, 45, 112, 114, 111, 111, 102, 45, 118, 49, 0]
  {
    hide Ascii;
    var codes: Bytes := [113, 117, 114, 108, 45, 99, 111, 110, 115, 117, 109, 101, 114, 45, 112, 114, 111, 111, 102, 45, 118, 49];
    AsciiIs("qurl-consumer-proof-v1", codes);
  }

  lemma BooleanBytes(b: bool)
    ensures FormatBool(b) == if b then [116, 114, 117, 101] else [102, 97, 108, 115, 101]
  {
    hide Ascii;
    AsciiIs("true", [116, 114, 117, 101]);
    AsciiIs("false", [102, 97, 108, 115, 101]);
  }

  lemma FieldsInOrder(p: Proof)
    requires Short(Fields(p))
    ensures |p.purpose| <= MAX_FIELD && |p.crid| <= MAX_FIELD && |p.credentialKind| <= MAX_FIELD
    ensures |p.credentialID| <= MAX_FIELD && |p.credentialPublicKey| <= MAX_FIELD && |p.authenticatedPeerKey| <= MAX_FIELD
    ensures |p.admissionPublicKey| <= MAX_FIELD && |p.email| <= MAX_FIELD && |p.invitationID| <= MAX_FIELD
    ensures |p.nonce| <= MAX_FIELD && |FormatBool(p.discloseEmail)| <= MAX_FIELD
    ensures Prefixed(Fields(p)) ==
              Framed(p.purpose) + (Framed(p.crid) + (Framed(p.credentialKind) + (Framed(p.credentialID)
              + (Framed(p.credentialPublicKey) + (Framed(p.authenticatedPeerKey) + (Framed(p.admissionPublicKey)
              + (Framed(p.email) + (Framed(FormatBool(p.discloseEmail)) + (Framed(p.invitationID) + Framed(p.nonce))))))))))
  {
    hide Framed, BigEndian, FormatBool, Prefixed;
    var fs := Fields(p);
    assert fs[0] == p.purpose && fs[1] == p.crid && fs[2] == p.credentialKind && fs[3] == p.credentialID;
    assert fs[4] == p.credentialPublicKey && fs[5] == p.authenticatedPeerKey && fs[6] == p.admissionPublicKey;
    assert fs[7] == p.email && fs[8] == FormatBool(p.discloseEmail) && fs[9] == p.invitationID && fs[10] == p.nonce;
    forall i | 0 <= i < 11
      ensures |fs[i]| <= MAX_FIELD
      ensures Prefixed(fs[i..]) == Framed(fs[i]) + Prefixed(fs[i + 1..])
    {
      OneField(fs[i], fs[i + 1..]);
      assert fs[i..] == [fs[i]] + fs[i + 1..];
    }
    assert fs[0..] == fs && fs[11..] == [];
    NothingPrefixed();
    assert Framed(fs[10]) + [] == Framed(fs[10]);
    assert Prefixed(fs[10..]) == Framed(p.nonce);
  }

  lemma NothingPrefixed()
    ensures Prefixed([]) == []
  {
  }

  lemma NumbersInOrder(p: Proof)
    requires InRange(Numbers(p))
    ensures IsVersion(p.policyVersion) && IsVersion(p.invitationVersion) && IsVersion(p.grantVersion) && IsVersion(p.issuedAt)
    ensures Fixed(Numbers(p)) ==
              EightBytes(p.policyVersion) + (EightBytes(p.invitationVersion)
              + (EightBytes(p.grantVersion) + EightBytes(p.issuedAt)))
  {
    hide BigEndian, EightBytes;
    NumbersInRange(p);
    OneNumber(p.policyVersion, [p.invitationVersion, p.grantVersion, p.issuedAt]);
    OneNumber(p.invitationVersion, [p.grantVersion, p.issuedAt]);
    OneNumber(p.grantVersion, [p.issuedAt]);
    OneNumber(p.issuedAt, []);
    var ns := Numbers(p);
    assert ns == [p.policyVersion] + [p.invitationVersion, p.grantVersion, p.issuedAt];
    assert [p.invitationVersion, p.grantVersion, p.issuedAt] == [p.invitationVersion] + [p.grantVersion, p.issuedAt];
    assert [p.grantVersion, p.issuedAt] == [p.grantVersion] + [p.issuedAt] && [p.issuedAt] == [p.issuedAt] + [];
    assert Fixed([]) == [];
  }

  /** The zero-terminated tag, eleven fields each behind its length, four numbers. */
  lemma PreimageLayout(p: Proof)
    requires Accepted(p)
    ensures Short(Fields(p)) && InRange(Numbers(p))
    ensures |p.purpose| <= MAX_FIELD && |p.crid| <= MAX_FIELD && |p.credentialKind| <= MAX_FIELD
    ensures |p.credentialID| <= MAX_FIELD && |p.credentialPublicKey| <= MAX_FIELD && |p.authenticatedPeerKey| <= MAX_FIELD
    ensures |p.admissionPublicKey| <= MAX_FIELD && |p.email| <= MAX_FIELD && |p.invitationID| <= MAX_FIELD
    ensures |p.nonce| <= MAX_FIELD
    ensures IsVersion(p.policyVersion) && IsVersion(p.invitationVersion) && IsVersion(p.grantVersion) && IsVersion(p.issuedAt)
    ensures var tag: Bytes := [
              113, 117, 114, 108, 45, 99, 111, 110, 115, 117, 109, 101, 114, 45, 112, 114, 111, 111, 102, 45, 118, 49, 0];
            var disclosed: Bytes := if p.discloseEmail then [116, 114, 117, 101] else [102, 97, 108, 115, 101];
            Preimage(p) == tag
              + (Framed(p.purpose) + (Framed(p.crid) + (Framed(p.credentialKind) + (Framed(p.credentialID)
              + (Framed(p.credentialPublicKey) + (Framed(p.authenticatedPeerKey) + (Framed(p.admissionPublicKey)
              + (Framed(p.email) + (Framed(disclosed) + (Framed(p.invitationID) + Framed(p.nonce)))))))))))
              + (EightBytes(p.policyVersion) + (EightBytes(p.invitationVersion)
              + (EightBytes(p.grantVersion) + EightBytes(p.issuedAt))))
  {
    hide IsPurpose, IsNonce, Ascii, Framed, EightBytes, BigEndian;
    FieldsInOrder(p);
    NumbersInOrder(p);
    TagBytes();
    BooleanBytes(p.discloseEmail);
    hide Prefixed, Fixed, Fields, Numbers, FormatBool;
  }

  predicate Upto53Bits(n: int) {
    0 <= n <= 9_007_199_254_740_991
  }

  /** Which proofs are accepted, in plain bytes and numbers; what a nonce is,
      Base64.NonceIffSpelled says. */
  lemma AcceptedExactly(p: Proof)
    ensures Accepted(p) <==>
            && p.purpose in {[105, 110, 102, 111], [101, 110, 114, 111, 108, 108], [97, 100, 109, 105, 116]}
            && IsNonce(p.nonce)
            && Upto53Bits(p.policyVersion) && Upto53Bits(p.invitationVersion) && Upto53Bits(p.grantVersion)
            && Upto53Bits(p.issuedAt) && p.issuedAt != 0
            && |p.crid| <= 1024 && |p.credentialKind| <= 1024 && |p.credentialID| <= 1024
            && |p.credentialPublicKey| <= 1024 && |p.authenticatedPeerKey| <= 1024 && |p.admissionPublicKey| <= 1024
            && |p.email| <= 1024 && |p.invitationID| <= 1024
  {
    hide Ascii, Digit;
    AsciiIs("info", [105, 110, 102, 111]);
    AsciiIs("enroll", [101, 110, 114, 111, 108, 108]);
    AsciiIs("admit", [97, 100, 109, 105, 116]);
    NumbersInRange(p);
    BooleanBytes(p.discloseEmail);
    ShortFields(p);
    hide FormatBool, Fields, Numbers, InRange, Short;
  }

  lemma ShortFields(p: Proof)
    ensures Short(Fields(p)) <==>
            && |p.purpose| <= 1024 && |p.crid| <= 1024 && |p.credentialKind| <= 1024 && |p.credentialID| <= 1024
            && |p.credentialPublicKey| <= 1024 && |p.authenticatedPeerKey| <= 1024 && |p.admissionPublicKey| <= 1024
            && |p.email| <= 1024 && |FormatBool(p.discloseEmail)| <= 1024 && |p.invitationID| <= 1024 && |p.nonce| <= 1024
  {
    hide FormatBool;
    var fs := Fields(p);
    assert fs[0] == p.purpose && fs[1] == p.crid && fs[2] == p.credentialKind && fs[3] == p.credentialID;
    assert fs[4] == p.credentialPublicKey && fs[5] == p.authenticatedPeerKey && fs[6] == p.admissionPublicKey;
    assert fs[7] == p.email && fs[8] == FormatBool(p.discloseEmail) && fs[9] == p.invitationID && fs[10] == p.nonce;
  }
}
