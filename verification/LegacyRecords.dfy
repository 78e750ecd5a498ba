/** Concrete stored records that show where the load and activation checks part
    from what one would expect of them. */
module LegacyRecords {
  import opened Wrappers
  import opened AgentStates
  import opened World
  import Activation = Registration

  function Fill(c: char, n: nat): (s: string)
    ensures |s| == n && forall i | 0 <= i < n :: s[i] == c
  {
    seq(n, i requires 0 <= i < n => c)
  }

  /** The bytes 9, 0, ..., 0. */
  const KEY_TEXT: string := "CQ" + Fill('A', 41) + "="
  const DIGEST_TEXT: string := Fill('A', 43)
  const HOST := "a.layerv.ai"

  const PLACEMENT := Assignment("c1", 1, 1, 2_000 * SECOND, Endpoint(HOST, 443, KEY_TEXT))
  const KEY_ID: string := "key_" + Fill('a', 12)
  const INITIAL := Initial(Registration(KEY_ID, "agent"), PLACEMENT, "t", 1_000 * SECOND)

  /** A record with a placement and nothing else, as a schema that had no
      recovery fields could leave it. */
  function Bare(schema: int, privateKey: string, publicKey: string): AgentState {
    AgentState(
      "ab", privateKey, publicKey, None, schema, "", "", "", Some(PLACEMENT), None, None, None, None, false)
  }

  lemma LabelGrows(host: string, first: string, others: seq<string>, grown: string)
    requires host != "" && host[0] != '.' && Labels(host[1..]) == [first] + others && grown == [host[0]] + first
    ensures Labels(host) == [grown] + others
  {
  }

  lemma LabelEnds(host: string, others: seq<string>)
    requires host != "" && host[0] == '.' && Labels(host[1..]) == others
    ensures Labels(host) == [""] + others
  {
  }

  lemma LastLabel()
    ensures Labels("ai") == ["ai"] + []
  {
    assert Labels("") == [""] + [];
    assert "i"[1..] == "" && "ai"[1..] == "i";
    LabelGrows("i", "", [], "i");
    LabelGrows("ai", "i", [], "ai");
  }

  lemma MiddleLabel()
    ensures Labels("layerv.ai") == ["layerv"] + ["ai"]
  {
    LastLabel();
    assert ".ai"[1..] == "ai" && "v.ai"[1..] == ".ai" && "rv.ai"[1..] == "v.ai" && "erv.ai"[1..] == "rv.ai";
    assert ["ai"] + [] == ["ai"];
    LabelEnds(".ai", ["ai"]);
    LabelGrows("v.ai", "", ["ai"], "v");
    LabelGrows("rv.ai", "v", ["ai"], "rv");
    LabelGrows("erv.ai", "rv", ["ai"], "erv");
    assert "yerv.ai"[1..] == "erv.ai" && "ayerv.ai"[1..] == "yerv.ai" && "layerv.ai"[1..] == "ayerv.ai";
    LabelGrows("yerv.ai", "erv", ["ai"], "yerv");
    LabelGrows("ayerv.ai", "yerv", ["ai"], "ayerv");
    LabelGrows("layerv.ai", "ayerv", ["ai"], "layerv");
  }

  lemma HostIsValid()
    ensures ValidHost(HOST)
  {
    hide Labels;
    MiddleLabel();
    assert ["layerv"] + ["ai"] == ["layerv", "ai"];
    assert ".layerv.ai"[1..] == "layerv.ai" && HOST[1..] == ".layerv.ai";
    LabelEnds(".layerv.ai", ["layerv", "ai"]);
    LabelGrows(HOST, "", ["layerv", "ai"], "a");
    assert [""] + ["layerv", "ai"] == ["", "layerv", "ai"];
    assert ["a"] + ["layerv", "ai"] == ["a", "layerv", "ai"];
    assert ValidLabel("a") && ValidLabel("layerv") && ValidLabel("ai");
  }

  lemma TextsAreValid()
    ensures PublicKeyText(KEY_TEXT) && Base64Url32(DIGEST_TEXT) && ValidKeyID(KEY_ID)
  {
    assert KEY_TEXT[..43] == "CQ" + Fill('A', 41);
    assert KEY_ID[4..] == Fill('a', 12);
  }

  lemma PlacementIsValid()
    ensures ValidAssignment(PLACEMENT)
  {
    hide ValidHost, PublicKeyText;
    HostIsValid();
    TextsAreValid();
  }

  lemma InitialIsValid()
    ensures ValidInitial(INITIAL)
  {
    hide ValidAssignment, ValidKeyID;
    PlacementIsValid();
    TextsAreValid();
  }

  /** The activation made of it is valid for the record at the current schema,
      with any fingerprint the decoder accepts. */
  function Pending(publicKey: string, fingerprint: string): PendingActivation {
    PendingActivation(
      "t", 1_000 * SECOND, 1_000 * SECOND, 1_000 * SECOND + HORIZON, "ab", publicKey, PLACEMENT,
      INITIAL.registration, "", "", fingerprint)
  }

  lemma PendingIsValid(fingerprint: string, s: AgentState)
    requires Base64Url32(WithoutNewlines(fingerprint)) && PublicKeyText(s.publicKey)
    requires s.assignment == Some(PLACEMENT) && s.agentID == "ab" && s.schemaVersion == SCHEMA_VERSION
    ensures ValidPendingActivation(Pending(s.publicKey, fingerprint), s)
  {
    hide ValidAssignment, ValidKeyID, PublicKeyText, Base64Url32, WithoutNewlines;
    PlacementIsValid();
    TextsAreValid();
  }

  lemma BareRecordLoads(schema: int, privateKey: string, publicKey: string, derive: string -> Option<string>)
    requires 0 <= schema <= SCHEMA_VERSION && derive(privateKey) == Some(publicKey) && publicKey != ""
    ensures var s := Bare(schema, privateKey, publicKey); ValidLoaded(s) && PrepareLoaded(s, derive) == Some(s)
  {
    hide ValidAssignment, PublicKeyText;
    PlacementIsValid();
  }

  /** For every key pair a record stored at schema 5 with a placement and no
      pending activation: it loads, the same record at the current schema can be
      activated with this valid Hub placement, and it itself cannot, with this
      one or any other. */
  lemma SchemaFiveCannotActivate(privateKey: string, publicKey: string, derive: string -> Option<string>)
    returns (s: AgentState, current: AgentState)
    requires derive(privateKey) == Some(publicKey) && PublicKeyText(publicKey)
    ensures s.schemaVersion == 5 && s.assignment.Some? && s.pendingActivation.None? && s.registeredAt.None?
    ensures current == s.(schemaVersion := SCHEMA_VERSION)
    ensures PrepareLoaded(s, derive) == Some(s) && PrepareLoaded(current, derive) == Some(current)
    ensures ValidInitial(INITIAL)
    ensures Activation.NewActivation(INITIAL, current, "", "", DIGEST_TEXT, INITIAL.ticketExpiresAt).Some?
    ensures forall initial: Initial, hostname: string, version: string, tag: string, anchor: Time ::
              Activation.NewActivation(initial, s.(assignment := Some(initial.assignment)), hostname, version, tag, anchor).None?
  {
    hide ValidLoaded, ValidInitial, ValidPendingActivation, Base64Url32;
    s, current := Bare(5, privateKey, publicKey), Bare(SCHEMA_VERSION, privateKey, publicKey);
    BareRecordLoads(5, privateKey, publicKey, derive);
    BareRecordLoads(SCHEMA_VERSION, privateKey, publicKey, derive);
    InitialIsValid();
    TextsAreValid();
    UnbrokenDigest();
    PendingIsValid(DIGEST_TEXT, current);
    assert Activation.NewActivation(INITIAL, current, "", "", DIGEST_TEXT, INITIAL.ticketExpiresAt) ==
           Some(Pending(publicKey, DIGEST_TEXT));
    forall initial: Initial, hostname: string, version: string, tag: string, anchor: Time
      ensures Activation.NewActivation(initial, s.(assignment := Some(initial.assignment)), hostname, version, tag, anchor).None?
    {
      Activation.OnlyForwardRecordsActivate(
        initial, s.(assignment := Some(initial.assignment)), hostname, version, tag, anchor);
    }
  }

  // --- Line breaks in the enrolment fingerprint ----------------------------------------

  predicate Unbroken(text: string) {
    forall i | 0 <= i < |text| :: text[i] != '\n' && text[i] != '\r'
  }

  lemma {:induction false} UnbrokenIsKept(text: string)
    requires Unbroken(text)
    ensures WithoutNewlines(text) == text
  {
    if text != "" {
      UnbrokenIsKept(text[1..]);
      assert text == [text[0]] + text[1..];
    }
  }

  lemma {:induction false} BrokenAtTheEnd(text: string)
    requires Unbroken(text)
    ensures WithoutNewlines(text + "\n") == text
  {
    if text == "" {
      assert (text + "\n")[1..] == "";
    } else {
      assert (text + "\n")[1..] == text[1..] + "\n";
      BrokenAtTheEnd(text[1..]);
    }
  }

  /** A fingerprint the validation accepts is the canonical spelling if and only
      if it holds no line break: those the decoder skips. */
  lemma AcceptedFingerprintIsCanonicalIffUnbroken(p: PendingActivation, s: AgentState)
    requires ValidPendingActivation(p, s)
    ensures Base64Url32(p.enrollmentFingerprint) <==> Unbroken(p.enrollmentFingerprint)
  {
    hide ValidAssignment, PublicKeyText, ValidTicket, ValidKeyID, ValidAgentID, ValidMetadata, WithoutNewlines;
    var text := p.enrollmentFingerprint;
    if Unbroken(text) {
      UnbrokenIsKept(text);
    } else {
      var i :| 0 <= i < |text| && (text[i] == '\n' || text[i] == '\r');
      assert text[i] in text && !UrlChar(text[i]);
    }
  }

  /** And one with a line break is accepted, in a record that loads. */
  lemma BrokenFingerprintLoads(privateKey: string, publicKey: string, derive: string -> Option<string>)
    returns (s: AgentState)
    requires derive(privateKey) == Some(publicKey) && PublicKeyText(publicKey)
    ensures PrepareLoaded(s, derive) == Some(s) && s.pendingActivation.Some?
    ensures var text := s.pendingActivation.value.enrollmentFingerprint;
            !Unbroken(text) && !Base64Url32(text)
  {
    hide ValidPendingActivation, ValidAssignment, Base64Url32, WithoutNewlines;
    var broken := DIGEST_TEXT + "\n";
    TextsAreValid();
    UnbrokenDigest();
    BrokenAtTheEnd(DIGEST_TEXT);
    s := Bare(SCHEMA_VERSION, privateKey, publicKey).(pendingActivation := Some(Pending(publicKey, broken)));
    PendingIsValid(broken, s);
    PlacementIsValid();
    TooLong(broken);
  }

  lemma TooLong(text: string)
    requires |text| == 44 && text[43] == '\n'
    ensures !Unbroken(text) && !Base64Url32(text)
  {
  }

  lemma UnbrokenDigest()
    ensures Unbroken(DIGEST_TEXT) && WithoutNewlines(DIGEST_TEXT) == DIGEST_TEXT
  {
    UnbrokenIsKept(DIGEST_TEXT);
  }
}
