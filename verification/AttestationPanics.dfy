/** When verification of a registration panics: gateway/src/crypto/webauthn.rs
    indexes past the end of a cut CBOR head and reserves what a container
    announces, and a client supplies the bytes. */
module AttestationPanics {
  import opened Prelude
  import opened Cbor
  import opened CborRoundTrip
  import opened Attestation
  import opened AttestationOrder
  import Base64

  lemma ParsedObjectPanicsIff(data: Bytes)
    ensures ParsedObject(data).Panic? <==> Broken(data)
  {
    ParsePanicsIffBroken(data);
    if Parse(data).Ok? && Parse(data).value.0.Map? {
      ObjectIsLookedUp(NO_OBJECT, Parse(data).value.0.entries);
    }
    hide Parse, Broken, ObjectEntries;
  }

  lemma Sec1NeverPanics(cose: Value)
    ensures !Sec1Of(cose).Panic?
  {
    if cose.Map? {
      KeyIsLookedUp(NO_KEY, cose.entries);
    }
    hide KeyEntries;
  }

  lemma VerdictNeverPanics(p: Primitives, attStmt: Value, authData: Bytes, clientData: Bytes, sec1: Bytes)
    ensures !PackedVerdict(p, attStmt, authData, clientData, sec1).Panic?
  {
    if attStmt.Map? {
      StatementIsLookedUp(NO_STATEMENT, attStmt.entries);
    }
    hide StatementEntries;
  }

  /** The last stage panics exactly when the key bytes in authData are broken. */
  lemma CredentialPanicsIff(p: Primitives, o: Object, clientData: Bytes)
    requires o.fmt.Some? && o.authData.Some?
    ensures CheckCredential(p, o, clientData).Panic?
            <==> AttestedCredential(o.authData.value).Ok? && Broken(AttestedCredential(o.authData.value).value.coseKey)
  {
    var cred := AttestedCredential(o.authData.value);
    if cred.Ok? {
      ParsePanicsIffBroken(cred.value.coseKey);
      if Parse(cred.value.coseKey).Ok? {
        var cose := Parse(cred.value.coseKey).value.0;
        Sec1NeverPanics(cose);
        if Sec1Of(cose).Ok? {
          VerdictNeverPanics(p, o.attStmt, o.authData.value, clientData, Sec1Of(cose).value);
        }
      }
    }
    hide Parse, Broken, Sec1Of, PackedVerdict, Base64.Encode;
  }

  /** Verification panics exactly when the client data passes and the decoded
      object is broken, or when the object, the header and the credential pass and
      the key bytes inside authData are broken. */
  lemma VerifyPanicsIff(p: Primitives, response: Response, challenge: Bytes, origin: string, rpId: Bytes)
    ensures VerifyAttestation(p, response, challenge, origin, rpId).Panic?
            <==> && CheckClientData(p, response.clientDataJson, challenge, origin).Ok?
                 && var bytes := Base64.Decode(Base64.UrlSafe, response.attestationObject);
                    && bytes.Some?
                    && (|| Broken(bytes.value)
                        || (&& ParsedObject(bytes.value).Ok?
                            && var authData := ParsedObject(bytes.value).value.authData.value;
                               && CheckHeader(p, authData, rpId).Ok? && AttestedCredential(authData).Ok?
                               && Broken(AttestedCredential(authData).value.coseKey)))
  {
    var bytes := Base64.Decode(Base64.UrlSafe, response.attestationObject);
    var clientData := CheckClientData(p, response.clientDataJson, challenge, origin);
    if bytes.Some? {
      ParsedObjectPanicsIff(bytes.value);
      if clientData.Ok? && ParsedObject(bytes.value).Ok? {
        CredentialPanicsIff(p, ParsedObject(bytes.value).value, clientData.value);
      }
    }
    assert !clientData.Panic?;
    hide Broken, ParsedObject, CheckCredential, CheckClientData, AttestedCredential, Base64.Decode;
  }

  lemma OneByteIsBroken()
    ensures Parse([0x18]) == Panic && Broken([0x18])
  {
    assert CutHead([0x18]);
    hide CutHead;
    assert Broken([0x18]);
    hide Broken, Parse;
    ParsePanicsIffBroken([0x18]);
  }

  /** One byte is enough: a head that announces an argument byte and ends. */
  lemma OneBytePanics(p: Primitives, response: Response, challenge: Bytes, origin: string, rpId: Bytes)
    requires CheckClientData(p, response.clientDataJson, challenge, origin).Ok?
    requires response.attestationObject == Base64.Encode(Base64.UrlSafe, [0x18])
    ensures Parse([0x18]) == Panic
    ensures VerifyAttestation(p, response, challenge, origin, rpId) == Panic
  {
    hide *;
    OneByteIsBroken();
    Base64.DecodeEncode(Base64.UrlSafe, [0x18]);
    VerifyPanicsIff(p, response, challenge, origin, rpId);
  }
}
