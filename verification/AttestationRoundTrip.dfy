/** Registration end to end: what an authenticator encodes is what the gateway
    stores, and what the gateway accepts was so encoded. */
module AttestationRoundTrip {
  import opened Prelude
  import opened Cbor
  import opened CborEncoding
  import opened Attestation
  import opened AttestationOrder
  import Base64
  import BigEndian

  /** A registration ceremony: what the relying party expects, and what the
      authenticator reports. */
  datatype Ceremony = Ceremony(
    challenge: Bytes, origin: string, rpId: Bytes, clientData: Bytes,
    flags: byte, signCount: nat, aaguid: Bytes, id: Bytes, x: Bytes, y: Bytes,
    fmt: Bytes, attStmt: Value)

  /** The authenticator's side of the contract (WebAuthn Level 2, section
      6.5.1): field widths, and the UV and AT flags. */
  predicate WellFormed(c: Ceremony) {
    && UserVerified(c.flags) && AttestedDataPresent(c.flags)
    && c.signCount < 0x1_0000_0000 && |c.aaguid| == 16 && |c.id| < 0x1_0000
    && |c.x| == 32 && |c.y| == 32
  }

  /** authData: RP id hash, flags, counter, aaguid, id length, id, key. */
  function AuthData(p: Primitives, c: Ceremony, coseKey: Bytes): Bytes
    requires WellFormed(c)
  {
    p.sha256(c.rpId) + [c.flags] + BigEndian.Encode(c.signCount, 4) + c.aaguid
    + BigEndian.Encode(|c.id|, 2) + c.id + coseKey
  }

  /** A COSE EC2 P-256 key map (RFC 9053, section 7.1.1), in any order and with
      any other integer-labelled entries. */
  ghost predicate CarriesKey(entries: seq<Entry>, x: Bytes, y: Bytes) {
    && DistinctKeys(entries)
    && (forall e | e in entries :: AsInt(e.key).Some?)
    && Entry(UnsignedInt(1), UnsignedInt(2)) in entries
    && Entry(NegativeInt(-1), UnsignedInt(1)) in entries
    && Entry(NegativeInt(-2), ByteString(x)) in entries
    && Entry(NegativeInt(-3), ByteString(y)) in entries
  }

  /** An attestation object map, in any order and with any other text keys. */
  ghost predicate CarriesObject(entries: seq<Entry>, fmt: Bytes, authData: Bytes, attStmt: Value) {
    && DistinctKeys(entries)
    && (forall e | e in entries :: e.key.TextString?)
    && Entry(TextString(FMT), TextString(fmt)) in entries
    && Entry(TextString(AUTH_DATA), ByteString(authData)) in entries
    && Entry(TextString(ATT_STMT), attStmt) in entries
  }

  /** The response is a wire form of the ceremony: `key` starts with some
      encoding of a key map, `obj` with some encoding of an object map. */
  ghost predicate Reports(p: Primitives, c: Ceremony, response: Response, key: Bytes, obj: Bytes)
    requires WellFormed(c)
  {
    && response.clientDataJson == Base64.Encode(Base64.UrlSafe, c.clientData)
    && p.parseClientData(c.clientData)
         == Some(ClientData("webauthn.create", c.origin, Base64.Encode(Base64.UrlSafe, c.challenge)))
    && response.attestationObject == Base64.Encode(Base64.UrlSafe, obj)
    && (exists entries, q, t :: key == q + t && Encodes(Map(entries), q) && CarriesKey(entries, c.x, c.y))
    && (exists entries, q, t :: obj == q + t && Encodes(Map(entries), q)
                                && CarriesObject(entries, c.fmt, AuthData(p, c, key), c.attStmt))
  }

  function Stored(c: Ceremony): AttestationResult {
    AttestationResult(Base64.Encode(Base64.UrlSafe, c.id), Base64.Encode(Base64.UrlSafe, [0x04] + c.x + c.y),
                      Hex(c.aaguid), c.signCount, c.fmt)
  }

  // ----------------------------------------------- reading it all back

  lemma KeyIsRead(entries: seq<Entry>, x: Bytes, y: Bytes)
    requires CarriesKey(entries, x, y) && |x| == 32 && |y| == 32
    ensures Sec1Of(Map(entries)) == Ok([0x04] + x + y)
  {
    forall e | e in entries
      ensures KeyEntry(NO_KEY, e).Ok?
    {
      KeyEntryIsTyped(entries, x, y, e);
    }
    KeyIsLookedUp(NO_KEY, entries);
    OnlyEntryIsFound(entries, IntName(1), Entry(UnsignedInt(1), UnsignedInt(2)));
    OnlyEntryIsFound(entries, IntName(-1), Entry(NegativeInt(-1), UnsignedInt(1)));
    OnlyEntryIsFound(entries, IntName(-2), Entry(NegativeInt(-2), ByteString(x)));
    OnlyEntryIsFound(entries, IntName(-3), Entry(NegativeInt(-3), ByteString(y)));
  }

  /** Distinct keys leave no room for a second, ill-typed coordinate. */
  lemma KeyEntryIsTyped(entries: seq<Entry>, x: Bytes, y: Bytes, e: Entry)
    requires CarriesKey(entries, x, y) && e in entries
    ensures KeyEntry(NO_KEY, e).Ok?
  {
    var name := IntName(AsInt(e.key).value);
    OnlyEntryIsFound(entries, name, e);
    if name == IntName(1) {
      OnlyEntryIsFound(entries, name, Entry(UnsignedInt(1), UnsignedInt(2)));
    } else if name == IntName(-1) {
      OnlyEntryIsFound(entries, name, Entry(NegativeInt(-1), UnsignedInt(1)));
    } else if name == IntName(-2) {
      OnlyEntryIsFound(entries, name, Entry(NegativeInt(-2), ByteString(x)));
    } else if name == IntName(-3) {
      OnlyEntryIsFound(entries, name, Entry(NegativeInt(-3), ByteString(y)));
    }
  }

  lemma ObjectIsRead(entries: seq<Entry>, fmt: Bytes, authData: Bytes, attStmt: Value)
    requires CarriesObject(entries, fmt, authData, attStmt)
    ensures ObjectOf(Map(entries)) == Ok(Object(Some(fmt), Some(authData), attStmt))
  {
    var f, a := Entry(TextString(FMT), TextString(fmt)), Entry(TextString(AUTH_DATA), ByteString(authData));
    var s := Entry(TextString(ATT_STMT), attStmt);
    OnlyEntryIsFound(entries, TextName(FMT), f);
    OnlyEntryIsFound(entries, TextName(AUTH_DATA), a);
    OnlyEntryIsFound(entries, TextName(ATT_STMT), s);
    forall e | e in entries
      ensures ObjectEntry(NO_OBJECT, e).Ok?
    {
      OnlyEntryIsFound(entries, TextName(e.key.text), e);
    }
    ObjectIsLookedUp(NO_OBJECT, entries);
  }

  lemma FieldOffsets<T>(hash: seq<T>, flags: T, count: seq<T>, aaguid: seq<T>, len: seq<T>, id: seq<T>, key: seq<T>)
    requires |hash| == 32 && |count| == 4 && |aaguid| == 16 && |len| == 2
    ensures var a := hash + [flags] + count + aaguid + len + id + key;
            && |a| == 55 + |id| + |key|
            && a[..32] == hash && a[32] == flags && a[33..37] == count && a[37..53] == aaguid
            && a[53..55] == len && a[55..55 + |id|] == id && a[55 + |id|..] == key
  {
  }

  lemma CredentialIsRead(p: Primitives, c: Ceremony, coseKey: Bytes)
    requires WellFormed(c) && |p.sha256(c.rpId)| == 32
    ensures var a := AuthData(p, c, coseKey);
            && CheckHeader(p, a, c.rpId) == Ok(())
            && AttestedCredential(a) == Ok(Credential(c.id, coseKey, c.signCount, Hex(c.aaguid)))
  {
    hide BigEndian.Decode, BigEndian.Encode, Hex, BigEndian.Pow256;
    BigEndian.Powers();
    BigEndian.DecodeEncode(c.signCount, 4);
    BigEndian.DecodeEncode(|c.id|, 2);
    FieldOffsets(p.sha256(c.rpId), c.flags, BigEndian.Encode(c.signCount, 4), c.aaguid,
                 BigEndian.Encode(|c.id|, 2), c.id, coseKey);
  }

  /** Whatever the order and head widths on the wire, verification comes down
      to the format's own verdict, and success stores the reported values. */
  lemma AttestationInverse(p: Primitives, c: Ceremony, response: Response, key: Bytes, obj: Bytes)
    requires WellFormed(c) && |p.sha256(c.rpId)| == 32
    requires Reports(p, c, response, key, obj)
    ensures VerifyAttestation(p, response, c.challenge, c.origin, c.rpId) ==
            if c.fmt == NONE then Ok(Stored(c))
            else if c.fmt == PACKED then
              (var verdict := PackedVerdict(p, c.attStmt, AuthData(p, c, key), c.clientData, [0x04] + c.x + c.y);
               if verdict.Ok? then Ok(Stored(c)) else Rejected(verdict))
            else Err(UnsupportedFormat)
  {
    hide Parse, Encodes, Sec1Of, ObjectOf, PackedVerdict, CheckHeader, AttestedCredential, Base64.Encode, Base64.Decode,
      AuthData, CarriesKey, CarriesObject;
    Base64.DecodeEncode(Base64.UrlSafe, c.clientData);
    Base64.DecodeEncode(Base64.UrlSafe, obj);
    var keyEntries, q, t :| key == q + t && Encodes(Map(keyEntries), q) && CarriesKey(keyEntries, c.x, c.y);
    ParseIsComplete(Map(keyEntries), q, t);
    KeyIsRead(keyEntries, c.x, c.y);
    var entries, r, u :| obj == r + u && Encodes(Map(entries), r)
      && CarriesObject(entries, c.fmt, AuthData(p, c, key), c.attStmt);
    ParseIsComplete(Map(entries), r, u);
    ObjectIsRead(entries, c.fmt, AuthData(p, c, key), c.attStmt);
    CredentialIsRead(p, c, key);
  }

  /** A packed self-attestation statement (WebAuthn Level 2, section 8.2). */
  ghost predicate CarriesSelfAttestation(attStmt: Value, sig: Bytes) {
    && attStmt.Map?
    && DistinctKeys(attStmt.entries)
    && (forall e | e in attStmt.entries :: e.key.TextString? && e.key.text !in {X5C, ECDAA})
    && Entry(TextString(ALG), NegativeInt(-7)) in attStmt.entries
    && Entry(TextString(SIG), ByteString(sig)) in attStmt.entries
  }

  lemma StatementIsRead(attStmt: Value, sig: Bytes)
    requires CarriesSelfAttestation(attStmt, sig)
    ensures StatementEntries(NO_STATEMENT, attStmt.entries) == Ok(Statement(Some(-7), Some(sig), false, false))
  {
    var entries := attStmt.entries;
    OnlyEntryIsFound(entries, TextName(ALG), Entry(TextString(ALG), NegativeInt(-7)));
    OnlyEntryIsFound(entries, TextName(SIG), Entry(TextString(SIG), ByteString(sig)));
    LastValueIsInEntries(entries, TextName(X5C));
    LastValueIsInEntries(entries, TextName(ECDAA));
    forall e | e in entries
      ensures StatementEntry(NO_STATEMENT, e).Ok?
    {
      OnlyEntryIsFound(entries, TextName(e.key.text), e);
    }
    StatementIsLookedUp(NO_STATEMENT, entries);
  }

  /** Packed self-attestation is accepted exactly when the signature over
      authData and the client data hash verifies under the reported key. */
  lemma PackedIffSigned(p: Primitives, c: Ceremony, response: Response, key: Bytes, obj: Bytes, sig: Bytes)
    requires WellFormed(c) && |p.sha256(c.rpId)| == 32 && c.fmt == PACKED
    requires Reports(p, c, response, key, obj) && CarriesSelfAttestation(c.attStmt, sig)
    ensures var sec1, message := [0x04] + c.x + c.y, AuthData(p, c, key) + p.sha256(c.clientData);
            VerifyAttestation(p, response, c.challenge, c.origin, c.rpId) == Ok(Stored(c)) <==>
            p.validPoint(sec1) && p.validDer(sig) && p.verifies(sec1, message, sig)
    ensures VerifyAttestation(p, response, c.challenge, c.origin, c.rpId) in
              {Ok(Stored(c)), Err(BadPoint), Err(BadDer), Err(BadSignature)}
  {
    assert PACKED[0] != NONE[0];
    hide VerifyAttestation, Reports, AuthData;
    AttestationInverse(p, c, response, key, obj);
    StatementIsRead(c.attStmt, sig);
  }

  /** Reordering the entries of the attestation object, or re-encoding it with
      other head widths or trailing bytes, changes nothing but the error. */
  lemma VerificationIgnoresOrder(p: Primitives, r1: Response, r2: Response, challenge: Bytes, origin: string,
                                 rpId: Bytes, a: seq<Entry>, b: seq<Entry>, q1: Bytes, t1: Bytes,
                                 q2: Bytes, t2: Bytes)
    requires r1.clientDataJson == r2.clientDataJson
    requires r1.attestationObject == Base64.Encode(Base64.UrlSafe, q1 + t1) && Encodes(Map(a), q1)
    requires r2.attestationObject == Base64.Encode(Base64.UrlSafe, q2 + t2) && Encodes(Map(b), q2)
    requires multiset(a) == multiset(b) && DistinctKeys(a)
    ensures Agree(VerifyAttestation(p, r1, challenge, origin, rpId), VerifyAttestation(p, r2, challenge, origin, rpId))
  {
    hide Parse, Encodes, ObjectOf, CheckHeader, CheckCredential, CheckClientData, Base64.Encode, Base64.Decode,
      DistinctKeys;
    Base64.DecodeEncode(Base64.UrlSafe, q1 + t1);
    Base64.DecodeEncode(Base64.UrlSafe, q2 + t2);
    ParseIsComplete(Map(a), q1, t1);
    ParseIsComplete(Map(b), q2, t2);
    ObjectIgnoresOrder(a, b);
  }

  // ----------------------------------------------------- acceptance

  /** What an accepted response is made of: the client data, the object's
      entries with their encoding and what trails it, authData, and the key's
      entries with the same, and its coordinates. */
  datatype Origin = Origin(clientData: Bytes, entries: seq<Entry>, objectBytes: Bytes, objectTail: Bytes,
                           authData: Bytes, key: seq<Entry>, keyBytes: Bytes, keyTail: Bytes, x: Bytes, y: Bytes)

  /** The texts of the response carry the client data, for this ceremony, and
      the object. */
  ghost predicate Carried(p: Primitives, response: Response, challenge: Bytes, origin: string, o: Origin) {
    && response.clientDataJson == Base64.Encode(Base64.UrlSafe, o.clientData)
    && p.parseClientData(o.clientData)
       == Some(ClientData("webauthn.create", origin, Base64.Encode(Base64.UrlSafe, challenge)))
    && response.attestationObject == Base64.Encode(Base64.UrlSafe, o.objectBytes + o.objectTail)
    && Encodes(Map(o.entries), o.objectBytes)
  }

  /** The object names the stored format and an authData with the right RP id,
      UV and AT, and the stored counter and id are cut out of it. */
  ghost predicate FromAuthData(p: Primitives, rpId: Bytes, r: AttestationResult, o: Origin) {
    && LastValue(o.entries, TextName(FMT)) == Some(TextString(r.fmt)) && r.fmt in {NONE, PACKED}
    && LastValue(o.entries, TextName(AUTH_DATA)) == Some(ByteString(o.authData))
    && |o.authData| >= 55 && o.authData[..32] == p.sha256(rpId)
    && UserVerified(o.authData[32]) && AttestedDataPresent(o.authData[32])
    && r.signCount == BigEndian.Decode(o.authData[33..37]) && r.aaguid == Hex(o.authData[37..53])
    && var n := BigEndian.Decode(o.authData[53..55]);
       && 55 + n <= |o.authData|
       && r.credentialId == Base64.Encode(Base64.UrlSafe, o.authData[55..55 + n])
       && o.authData[55 + n..] == o.keyBytes + o.keyTail
  }

  /** The stored key is the one in authData, and a packed format comes with a
      signature that verifies under it. */
  ghost predicate FromKey(p: Primitives, r: AttestationResult, o: Origin) {
    && Encodes(Map(o.key), o.keyBytes)
    && LastValue(o.key, IntName(-2)) == Some(ByteString(o.x))
    && LastValue(o.key, IntName(-3)) == Some(ByteString(o.y))
    && |o.x| == |o.y| == 32 && r.publicKey == Base64.Encode(Base64.UrlSafe, [0x04] + o.x + o.y)
    && (r.fmt == PACKED ==> Signed(p, [0x04] + o.x + o.y, o.authData + p.sha256(o.clientData)))
  }

  ghost predicate Signed(p: Primitives, sec1: Bytes, message: Bytes) {
    p.validPoint(sec1) && exists sig :: p.validDer(sig) && p.verifies(sec1, message, sig)
  }

  /** Nothing is stored that was not earned: every accepted response has such an
      origin. */
  lemma AcceptanceIsEarned(p: Primitives, response: Response, challenge: Bytes, origin: string, rpId: Bytes)
    returns (o: Origin)
    requires VerifyAttestation(p, response, challenge, origin, rpId).Ok?
    ensures Carried(p, response, challenge, origin, o)
    ensures FromAuthData(p, rpId, VerifyAttestation(p, response, challenge, origin, rpId).value, o)
    ensures FromKey(p, VerifyAttestation(p, response, challenge, origin, rpId).value, o)
  {
    hide Parse, Encodes, Base64.Encode, Base64.Decode, Hex, BigEndian.Decode, ObjectEntries, KeyEntries,
      StatementEntries, LastValue;
    var clientData := CheckClientData(p, response.clientDataJson, challenge, origin).value;
    Base64.DecodedIsEncoding(Base64.UrlSafe, response.clientDataJson);
    Base64.DecodedIsEncoding(Base64.UrlSafe, response.attestationObject);
    var v, q, t, object' := ObjectOrigin(Base64.Decode(Base64.UrlSafe, response.attestationObject).value);
    var authData := object'.authData.value;
    var key, k, u, x, y := KeyOrigin(AttestedCredential(authData).value.coseKey);
    o := Origin(clientData, v.entries, q, t, authData, key, k, u, x, y);
  }

  lemma ObjectOrigin(data: Bytes) returns (v: Value, q: Bytes, t: Bytes, o: Object)
    requires ParsedObject(data).Ok?
    ensures ParsedObject(data) == Ok(o) && o.fmt.Some? && o.authData.Some?
    ensures data == q + t && v.Map? && Encodes(Map(v.entries), q)
    ensures LastValue(v.entries, TextName(FMT)) == Some(TextString(o.fmt.value))
    ensures LastValue(v.entries, TextName(AUTH_DATA)) == Some(ByteString(o.authData.value))
  {
    hide Parse, Encodes, ObjectEntries, LastValue;
    ParseIsSound(data);
    v, t := Parse(data).value.0, Parse(data).value.1;
    q, o := Consumed(t, data), ParsedObject(data).value;
    ObjectIsLookedUp(NO_OBJECT, v.entries);
  }

  lemma KeyOrigin(data: Bytes) returns (key: seq<Entry>, k: Bytes, u: Bytes, x: Bytes, y: Bytes)
    requires Parse(data).Ok? && Sec1Of(Parse(data).value.0).Ok?
    ensures data == k + u && Encodes(Map(key), k) && Parse(data).value.0 == Map(key)
    ensures LastValue(key, IntName(-2)) == Some(ByteString(x)) && LastValue(key, IntName(-3)) == Some(ByteString(y))
    ensures |x| == |y| == 32 && Sec1Of(Map(key)) == Ok([0x04] + x + y)
  {
    hide Parse, Encodes, KeyEntries, LastValue;
    ParseIsSound(data);
    u := Parse(data).value.1;
    key, k := Parse(data).value.0.entries, Consumed(u, data);
    KeyIsLookedUp(NO_KEY, key);
    var found := LookUpKey(NO_KEY, key);
    x, y := found.x.value, found.y.value;
  }
}
