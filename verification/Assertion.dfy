/** Assertions and their replay counter: `verify_assertion` and what it calls
    in gateway/src/crypto/webauthn.rs. */
module Assertion {
  import opened Prelude
  import opened Attestation
  import Base64
  import BigEndian

  /** A row of the credentials table. Rows are not unique per credential id. */
  datatype CredentialRow = CredentialRow(tenant: string, credentialId: string, publicKey: string, counter: nat,
                                         revoked: bool)

  /** The phone's response; all fields are base64 text. */
  datatype Response = Response(credentialId: string, clientDataJson: string, authenticatorData: string,
                               signature: string)

  /** Which of the call's three database steps find a connection. */
  datatype Database = Database(counter: bool, key: bool, update: bool)

  datatype Call = Call(tenant: string, response: Response, challenge: Bytes, db: Database)

  /** Verification of a decoded signature under a decoded public key over a
      message; false also when the key or the signature does not parse. */
  datatype Library = Library(attestation: Primitives, verifies: (Bytes, Bytes, Bytes) -> bool)

  const DEFAULT_RP_ID := Ascii("localhost")
  const DEFAULT_RP_ORIGIN := "https://localhost:8443"
  const U32: nat := 0x1_0000_0000

  /** `counter_is_valid`. */
  predicate CounterIsValid(stored: nat, asserted: nat) {
    stored == 0 || asserted == 0 || asserted > stored
  }

  datatype AuthenticatorData = AuthenticatorData(rpIdHash: Bytes, flags: byte, signCount: nat)

  function ParseAuthenticatorData(text: string): Option<AuthenticatorData> {
    var bytes := Base64.Decode(Base64.UrlSafe, text);
    if bytes.None? || |bytes.value| < 37 then None
    else Some(AuthenticatorData(bytes.value[..32], bytes.value[32], BigEndian.Decode(bytes.value[33..37])))
  }

  predicate ClientDataIsValid(lib: Library, c: Call) {
    var bytes := Base64.Decode(Base64.UrlSafe, c.response.clientDataJson);
    && bytes.Some?
    && var data := lib.attestation.parseClientData(bytes.value);
       && data.Some? && data.value.kind == "webauthn.get" && data.value.origin == DEFAULT_RP_ORIGIN
       && data.value.challenge == Base64.Encode(Base64.UrlSafe, c.challenge)
  }

  predicate Names(r: CredentialRow, tenant: string, id: string) {
    r.tenant == tenant && r.credentialId == id
  }

  /** The row that both lookups find: the first live one of the credential. */
  function Live(rows: seq<CredentialRow>, tenant: string, id: string): Option<CredentialRow> {
    if rows == [] then None
    else if Names(rows[0], tenant, id) && !rows[0].revoked then Some(rows[0])
    else Live(rows[1..], tenant, id)
  }

  function StoredCounter(rows: seq<CredentialRow>, tenant: string, id: string): Option<nat> {
    var r := Live(rows, tenant, id);
    if r.Some? then Some(r.value.counter) else None
  }

  predicate SignatureIsValid(lib: Library, publicKey: string, r: Response) {
    var key, sig := Base64.DecodeFlexible(publicKey), Base64.DecodeFlexible(r.signature);
    var authData, clientData := Base64.DecodeFlexible(r.authenticatorData), Base64.DecodeFlexible(r.clientDataJson);
    && key.Some? && sig.Some? && authData.Some? && clientData.Some?
    && lib.verifies(key.value, authData.value + lib.attestation.sha256(clientData.value), sig.value)
  }

  /** Every check but the counter. */
  predicate Genuine(lib: Library, rows: seq<CredentialRow>, c: Call) {
    && ClientDataIsValid(lib, c)
    && var data := ParseAuthenticatorData(c.response.authenticatorData);
       && data.Some? && UserVerified(data.value.flags)
       && data.value.rpIdHash == lib.attestation.sha256(DEFAULT_RP_ID)
       && c.db.key
       && var row := Live(rows, c.tenant, c.response.credentialId);
          row.Some? && SignatureIsValid(lib, row.value.publicKey, c.response)
  }

  /** The counter that a well-formed call asserts. */
  function Asserted(c: Call): (n: nat)
    ensures n < U32
  {
    var data := ParseAuthenticatorData(c.response.authenticatorData);
    if data.None? then 0
    else
      BigEndian.Powers();
      data.value.signCount
  }

  /** A missing row or a failed lookup means no replay check. */
  predicate CounterPasses(rows: seq<CredentialRow>, c: Call) {
    var stored := StoredCounter(rows, c.tenant, c.response.credentialId);
    !c.db.counter || stored.None? || CounterIsValid(stored.value, Asserted(c))
  }

  predicate Accepts(lib: Library, rows: seq<CredentialRow>, c: Call) {
    Genuine(lib, rows, c) && CounterPasses(rows, c)
  }

  /** The update writes every row of the credential, revoked or not. */
  function Advanced(rows: seq<CredentialRow>, tenant: string, id: string, n: nat): seq<CredentialRow> {
    if rows == [] then []
    else [if Names(rows[0], tenant, id) then rows[0].(counter := n) else rows[0]] + Advanced(rows[1..], tenant, id, n)
  }

  /** The credentials table. */
  class Credentials {
    var rows: seq<CredentialRow>

    constructor (rows: seq<CredentialRow>)
      ensures this.rows == rows
    {
      this.rows := rows;
    }

    /** The checks of `verify_assertion`, with the lookups of the counter and of
        the key. */
    method CheckAssertion(lib: Library, c: Call) returns (ok: bool)
      ensures ok == Accepts(lib, rows, c)
    {
      hide Live, Base64.Decode, Base64.DecodeFlexible, SignatureIsValid, ClientDataIsValid;
      if !ClientDataIsValid(lib, c) {
        return false;
      }
      var data := ParseAuthenticatorData(c.response.authenticatorData);
      if data.None? || !UserVerified(data.value.flags) {
        return false;
      }
      if data.value.rpIdHash != lib.attestation.sha256(DEFAULT_RP_ID) {
        return false;
      }
      if c.db.counter {
        var stored := StoredCounter(rows, c.tenant, c.response.credentialId);
        if stored.Some? && !CounterIsValid(stored.value, data.value.signCount) {
          return false;
        }
      }
      if !c.db.key {
        return false;
      }
      var row := Live(rows, c.tenant, c.response.credentialId);
      ok := row.Some? && SignatureIsValid(lib, row.value.publicKey, c.response);
    }

    /** `update_credential_counter`: nothing happens without a connection. */
    method AdvanceCounter(c: Call)
      modifies this
      ensures rows == Updated(old(rows), c)
    {
      if c.db.update {
        rows := Advanced(rows, c.tenant, c.response.credentialId, Asserted(c));
      }
    }

    /** `verify_assertion`, run without interruption: an accepted assertion
        advances the counter. */
    method VerifyAssertion(lib: Library, c: Call) returns (ok: bool)
      modifies this
      ensures ok == Accepts(lib, old(rows), c)
      ensures rows == After(lib, old(rows), c)
    {
      ok := CheckAssertion(lib, c);
      if ok {
        AdvanceCounter(c);
      }
    }
  }

  /** The table after the update of a call. */
  function Updated(rows: seq<CredentialRow>, c: Call): seq<CredentialRow> {
    if c.db.update then Advanced(rows, c.tenant, c.response.credentialId, Asserted(c)) else rows
  }

  /** The table after a call. */
  function After(lib: Library, rows: seq<CredentialRow>, c: Call): seq<CredentialRow> {
    if Accepts(lib, rows, c) then Updated(rows, c) else rows
  }

  // -------------------------------------------- one call, both ways

  /** Authenticator data with its fields in place. */
  function AuthData(rpIdHash: Bytes, flags: byte, count: nat, extensions: Bytes): Bytes {
    rpIdHash + [flags] + BigEndian.Encode(count, 4) + extensions
  }

  /** The client data is for this challenge, at this origin. */
  predicate ForThisApproval(lib: Library, clientData: Bytes, challenge: Bytes) {
    lib.attestation.parseClientData(clientData)
    == Some(ClientData("webauthn.get", DEFAULT_RP_ORIGIN, Base64.Encode(Base64.UrlSafe, challenge)))
  }

  lemma AuthDataIsRead(text: string, rpIdHash: Bytes, flags: byte, count: nat, extensions: Bytes)
    requires |rpIdHash| == 32 && count < U32
    requires text == Base64.Encode(Base64.UrlSafe, AuthData(rpIdHash, flags, count, extensions))
    ensures ParseAuthenticatorData(text) == Some(AuthenticatorData(rpIdHash, flags, count))
    ensures Base64.DecodeFlexible(text) == Some(AuthData(rpIdHash, flags, count, extensions))
  {
    hide Base64.Decode, Base64.DecodePadded, Base64.Encode, BigEndian.Decode, BigEndian.Encode, BigEndian.Pow256;
    var bytes := AuthData(rpIdHash, flags, count, extensions);
    Base64.DecodeEncode(Base64.UrlSafe, bytes);
    BigEndian.Powers();
    BigEndian.DecodeEncode(count, 4);
    assert bytes[..32] == rpIdHash && bytes[32] == flags;
    assert bytes[33..37] == BigEndian.Encode(count, 4);
  }

  /** What the texts of a call and the stored row encode. */
  datatype Evidence = Evidence(row: CredentialRow, key: Bytes, sig: Bytes, clientData: Bytes, rpIdHash: Bytes,
                               flags: byte, count: nat, extensions: Bytes)

  /** The call's texts encode this evidence: the first two in unpadded base64url,
      the signature and the stored key in any of the three encodings. */
  predicate Encoded(rows: seq<CredentialRow>, c: Call, e: Evidence) {
    && |e.rpIdHash| == 32 && e.count < U32
    && c.response.clientDataJson == Base64.Encode(Base64.UrlSafe, e.clientData)
    && c.response.authenticatorData
       == Base64.Encode(Base64.UrlSafe, AuthData(e.rpIdHash, e.flags, e.count, e.extensions))
    && Base64.DecodeFlexible(c.response.signature) == Some(e.sig)
    && Live(rows, c.tenant, c.response.credentialId) == Some(e.row)
    && Base64.DecodeFlexible(e.row.publicKey) == Some(e.key)
  }

  /** The evidence is for this approval, by a verified user of this RP, with a
      count that passes against the stored one where that is served, and signed
      by the stored key. */
  predicate Allowed(lib: Library, c: Call, e: Evidence) {
    && ForThisApproval(lib, e.clientData, c.challenge)
    && e.flags / 4 % 2 == 1
    && e.rpIdHash == lib.attestation.sha256(DEFAULT_RP_ID)
    && c.db.key
    && (c.db.counter ==> e.row.counter == 0 || e.count == 0 || e.row.counter < e.count)
    && lib.verifies(e.key, AuthData(e.rpIdHash, e.flags, e.count, e.extensions) + lib.attestation.sha256(e.clientData),
                    e.sig)
  }

  /** Verification as a statement about what was encoded. */
  lemma AcceptedIff(lib: Library, rows: seq<CredentialRow>, c: Call, e: Evidence)
    requires Encoded(rows, c, e)
    ensures Accepts(lib, rows, c) <==> Allowed(lib, c, e)
    ensures Asserted(c) == e.count
  {
    hide Live, ParseAuthenticatorData, AuthData, ClientDataIsValid, SignatureIsValid, ForThisApproval, BigEndian.Pow256,
      Base64.Encode, Base64.DecodeFlexible;
    AuthDataIsRead(c.response.authenticatorData, e.rpIdHash, e.flags, e.count, e.extensions);
    ClientDataIff(lib, c, e.clientData);
    SignatureIff(lib, e.row.publicKey, c.response, e.key, e.sig, AuthData(e.rpIdHash, e.flags, e.count, e.extensions),
                 e.clientData);
  }

  /** And conversely every accepted call encodes such evidence. */
  lemma AcceptanceIsEarned(lib: Library, rows: seq<CredentialRow>, c: Call) returns (e: Evidence)
    requires Accepts(lib, rows, c)
    ensures Encoded(rows, c, e) && Allowed(lib, c, e)
  {
    hide Live, Base64.Decode, Base64.DecodePadded, Base64.Encode, AuthData, BigEndian.Decode, BigEndian.Pow256;
    var r, row := c.response, Live(rows, c.tenant, c.response.credentialId).value;
    var clientData := Base64.Decode(Base64.UrlSafe, r.clientDataJson).value;
    var bytes := Base64.Decode(Base64.UrlSafe, r.authenticatorData).value;
    Base64.DecodedIsEncoding(Base64.UrlSafe, r.clientDataJson);
    Base64.DecodedIsEncoding(Base64.UrlSafe, r.authenticatorData);
    AuthDataIsWritten(bytes);
    e := Evidence(row, Base64.DecodeFlexible(row.publicKey).value, Base64.DecodeFlexible(r.signature).value, clientData,
                  bytes[..32], bytes[32], BigEndian.Decode(bytes[33..37]), bytes[37..]);
    hide Accepts, Allowed, Base64.DecodeFlexible;
    AcceptedIff(lib, rows, c, e);
  }

  lemma AuthDataIsWritten(bytes: Bytes)
    requires |bytes| >= 37
    ensures BigEndian.Decode(bytes[33..37]) < U32
    ensures bytes == AuthData(bytes[..32], bytes[32], BigEndian.Decode(bytes[33..37]), bytes[37..])
  {
    BigEndian.Powers();
    BigEndian.EncodeDecode(bytes[33..37]);
    hide BigEndian.Decode, BigEndian.Encode;
    assert bytes == bytes[..32] + [bytes[32]] + bytes[33..37] + bytes[37..];
  }

  lemma ClientDataIff(lib: Library, c: Call, clientData: Bytes)
    requires c.response.clientDataJson == Base64.Encode(Base64.UrlSafe, clientData)
    ensures ClientDataIsValid(lib, c) <==> ForThisApproval(lib, clientData, c.challenge)
    ensures Base64.DecodeFlexible(c.response.clientDataJson) == Some(clientData)
  {
    Base64.DecodeEncode(Base64.UrlSafe, clientData);
    hide Base64.Decode, Base64.DecodePadded, Base64.Encode;
  }

  lemma SignatureIff(lib: Library, publicKey: string, r: Response, key: Bytes, sig: Bytes, authData: Bytes,
                     clientData: Bytes)
    requires Base64.DecodeFlexible(publicKey) == Some(key) && Base64.DecodeFlexible(r.signature) == Some(sig)
    requires Base64.DecodeFlexible(r.authenticatorData) == Some(authData)
    requires Base64.DecodeFlexible(r.clientDataJson) == Some(clientData)
    ensures SignatureIsValid(lib, publicKey, r)
            <==> lib.verifies(key, authData + lib.attestation.sha256(clientData), sig)
  {
    hide Base64.DecodeFlexible;
  }

  /** WebAuthn Level 2, section 7.2, step 21. */
  predicate StandardAllows(stored: nat, asserted: nat) {
    (asserted != 0 || stored != 0) ==> asserted > stored
  }

  /** Where the code departs from the standard: it also lets a zero through
      after a count. */
  lemma CodeAndStandard(stored: nat, asserted: nat)
    ensures CounterIsValid(stored, asserted)
            <==> StandardAllows(stored, asserted) || (stored != 0 && asserted == 0)
  {
  }

  // ------------------------------------------------ runs of the gateway

  function Run(lib: Library, rows: seq<CredentialRow>, calls: seq<Call>): seq<CredentialRow>
    decreases |calls|
  {
    if calls == [] then rows else Run(lib, After(lib, rows, calls[0]), calls[1..])
  }

  predicate For(c: Call, tenant: string, id: string) {
    c.tenant == tenant && c.response.credentialId == id
  }

  /** The counts accepted for one credential, in order. */
  function Accepted(lib: Library, rows: seq<CredentialRow>, calls: seq<Call>, tenant: string, id: string): seq<nat>
    decreases |calls|
  {
    if calls == [] then []
    else
      (if For(calls[0], tenant, id) && Accepts(lib, rows, calls[0]) then [Asserted(calls[0])] else [])
      + Accepted(lib, After(lib, rows, calls[0]), calls[1..], tenant, id)
  }

  /** The database serves the counter's lookup and update. */
  predicate Served(calls: seq<Call>, tenant: string, id: string) {
    forall c :: c in calls && For(c, tenant, id) ==> c.db.counter && c.db.update
  }

  lemma {:induction false} AdvancedLive(rows: seq<CredentialRow>, tenant: string, id: string, n: nat,
                                        tenant': string, id': string)
    ensures var live := Live(rows, tenant', id');
            var hit := tenant == tenant' && id == id' && live.Some?;
            Live(Advanced(rows, tenant, id, n), tenant', id') == if hit then Some(live.value.(counter := n)) else live
  {
    if rows != [] {
      AdvancedLive(rows[1..], tenant, id, n, tenant', id');
      assert Advanced(rows, tenant, id, n)[1..] == Advanced(rows[1..], tenant, id, n);
    }
  }

  /** Counters aside, a genuine call stays genuine. */
  lemma GenuineKept(lib: Library, rows: seq<CredentialRow>, tenant: string, id: string, n: nat, c: Call)
    ensures Genuine(lib, Advanced(rows, tenant, id, n), c) <==> Genuine(lib, rows, c)
  {
    AdvancedLive(rows, tenant, id, n, c.tenant, c.response.credentialId);
    hide Live, Advanced, ClientDataIsValid, SignatureIsValid, ParseAuthenticatorData;
  }

  /** What one call does to one credential's stored counter. */
  lemma CounterAfter(lib: Library, rows: seq<CredentialRow>, c: Call, tenant: string, id: string)
    requires For(c, tenant, id) ==> c.db.counter && c.db.update
    ensures var before, after := StoredCounter(rows, tenant, id), StoredCounter(After(lib, rows, c), tenant, id);
            if For(c, tenant, id) && Accepts(lib, rows, c)
            then before.Some? && CounterIsValid(before.value, Asserted(c)) && after == Some(Asserted(c))
            else after == before
  {
    AdvancedLive(rows, c.tenant, c.response.credentialId, Asserted(c), tenant, id);
    hide Live, Advanced, ClientDataIsValid, SignatureIsValid, ParseAuthenticatorData, Asserted;
  }

  /** Each count passes the check against the one before it. */
  predicate Chained(prev: nat, counts: seq<nat>)
    decreases |counts|
  {
    counts == [] || (CounterIsValid(prev, counts[0]) && Chained(counts[0], counts[1..]))
  }

  function Last(prev: nat, counts: seq<nat>): nat {
    if counts == [] then prev else counts[|counts| - 1]
  }

  /** In every run, whatever other credentials do, the accepted counts of a
      credential are checked one against the next, and the stored counter is
      the last of them. */
  lemma {:induction false} AcceptedCountsChain(lib: Library, rows: seq<CredentialRow>, calls: seq<Call>,
                                               tenant: string, id: string)
    requires Served(calls, tenant, id)
    ensures var before, counts := StoredCounter(rows, tenant, id), Accepted(lib, rows, calls, tenant, id);
            var after := StoredCounter(Run(lib, rows, calls), tenant, id);
            if before.Some? then Chained(before.value, counts) && after == Some(Last(before.value, counts))
            else counts == [] && after.None?
    decreases |calls|
  {
    if calls != [] {
      var c := calls[0];
      assert c in calls;
      hide After, Accepts, Asserted, StoredCounter;
      CounterAfter(lib, rows, c, tenant, id);
      AcceptedCountsChain(lib, After(lib, rows, c), calls[1..], tenant, id);
      var before, rest := StoredCounter(rows, tenant, id), Accepted(lib, After(lib, rows, c), calls[1..], tenant, id);
      if For(c, tenant, id) && Accepts(lib, rows, c) {
        assert Accepted(lib, rows, calls, tenant, id) == [Asserted(c)] + rest;
        ChainedCons(before.value, Asserted(c), rest);
      } else {
        assert Accepted(lib, rows, calls, tenant, id) == rest;
      }
    }
  }

  lemma ChainedCons(prev: nat, n: nat, rest: seq<nat>)
    ensures Chained(prev, [n] + rest) <==> CounterIsValid(prev, n) && Chained(n, rest)
    ensures Last(prev, [n] + rest) == Last(n, rest)
  {
    assert ([n] + rest)[1..] == rest;
  }

  lemma {:induction false} ChainedAt(prev: nat, counts: seq<nat>, i: nat)
    requires Chained(prev, counts) && i < |counts|
    ensures CounterIsValid(if i == 0 then prev else counts[i - 1], counts[i])
    decreases i
  {
    if i > 0 {
      ChainedAt(counts[0], counts[1..], i - 1);
    }
  }

  /** A stretch without zeros rises all the way. */
  lemma {:induction false} NonZeroRises(prev: nat, counts: seq<nat>, i: nat, j: nat)
    requires Chained(prev, counts) && i < j < |counts|
    requires forall k :: i <= k <= j ==> counts[k] != 0
    ensures counts[i] + (j - i) <= counts[j]
    decreases j
  {
    ChainedAt(prev, counts, j);
    if i < j - 1 {
      NonZeroRises(prev, counts, i, j - 1);
    }
  }

  lemma {:induction false} AcceptedAreU32(lib: Library, rows: seq<CredentialRow>, calls: seq<Call>,
                                          tenant: string, id: string)
    ensures forall n :: n in Accepted(lib, rows, calls, tenant, id) ==> n < U32
    decreases |calls|
  {
    if calls != [] {
      AcceptedAreU32(lib, After(lib, rows, calls[0]), calls[1..], tenant, id);
      hide After, Accepts;
    }
  }

  /** Replay protection over whole runs: consecutive non-zero counts strictly
      increase; a count comes back only after an accepted zero; and k
      acceptances without a zero take the stored counter at least k further, so
      that there are fewer than 2^32 of them. */
  lemma ReplayProtection(lib: Library, rows: seq<CredentialRow>, calls: seq<Call>, tenant: string, id: string)
    requires Served(calls, tenant, id)
    requires StoredCounter(rows, tenant, id).Some?
    ensures var start, counts := StoredCounter(rows, tenant, id).value, Accepted(lib, rows, calls, tenant, id);
            && (forall i :: 0 < i < |counts| && counts[i - 1] != 0 && counts[i] != 0 ==> counts[i - 1] < counts[i])
            && (forall i, j :: 0 <= i < j < |counts| && counts[i] == counts[j] != 0 ==>
                  exists k :: i < k < j && counts[k] == 0)
            && (0 !in counts ==>
                  && StoredCounter(Run(lib, rows, calls), tenant, id).Some?
                  && StoredCounter(Run(lib, rows, calls), tenant, id).value >= start + |counts|
                  && (counts != [] ==> start + |counts| < U32))
  {
    AcceptedCountsChain(lib, rows, calls, tenant, id);
    AcceptedAreU32(lib, rows, calls, tenant, id);
    var start, counts := StoredCounter(rows, tenant, id).value, Accepted(lib, rows, calls, tenant, id);
    hide *;
    NeighboursRise(start, counts);
    OnlyAfterZero(start, counts);
    if 0 !in counts {
      StartRises(start, counts);
    }
  }

  lemma NeighboursRise(prev: nat, counts: seq<nat>)
    requires Chained(prev, counts)
    ensures forall i :: 0 < i < |counts| && counts[i - 1] != 0 && counts[i] != 0 ==> counts[i - 1] < counts[i]
  {
    hide Chained;
    forall i | 0 < i < |counts| && counts[i - 1] != 0 && counts[i] != 0
      ensures counts[i - 1] < counts[i]
    {
      ChainedAt(prev, counts, i);
    }
  }

  lemma OnlyAfterZero(prev: nat, counts: seq<nat>)
    requires Chained(prev, counts)
    ensures forall i, j :: 0 <= i < j < |counts| && counts[i] == counts[j] != 0 ==>
              exists k :: i < k < j && counts[k] == 0
  {
    hide Chained;
    forall i, j | 0 <= i < j < |counts| && counts[i] == counts[j] != 0
      ensures exists k :: i < k < j && counts[k] == 0
    {
      if forall k :: i < k < j ==> counts[k] != 0 {
        NonZeroRises(prev, counts, i, j);
      }
    }
  }

  lemma StartRises(prev: nat, counts: seq<nat>)
    requires Chained(prev, counts) && 0 !in counts
    requires forall n :: n in counts ==> n < U32
    ensures Last(prev, counts) >= prev + |counts|
    ensures counts != [] ==> prev + |counts| < U32
  {
    hide Chained;
    if counts != [] {
      ChainedAt(prev, counts, 0);
      if |counts| > 1 {
        NonZeroRises(prev, counts, 0, |counts| - 1);
      }
      assert counts[0] in counts && counts[|counts| - 1] in counts;
    }
  }

  /** The exception is real: a credential that asserts a count, then zero, can
      assert the same count again with the very same response. */
  lemma ZeroReopens(lib: Library, rows: seq<CredentialRow>, a: Call, zero: Call, tenant: string, id: string)
    requires For(a, tenant, id) && For(zero, tenant, id)
    requires a.db == zero.db == Database(true, true, true)
    requires Accepts(lib, rows, a) && Genuine(lib, rows, zero) && Asserted(zero) == 0
    ensures Accepted(lib, rows, [a, zero, a], tenant, id) == [Asserted(a), 0, Asserted(a)]
  {
    var rows1 := Advanced(rows, tenant, id, Asserted(a));
    var rows2 := Advanced(rows1, tenant, id, 0);
    GenuineKept(lib, rows, tenant, id, Asserted(a), zero);
    GenuineKept(lib, rows, tenant, id, Asserted(a), a);
    GenuineKept(lib, rows1, tenant, id, 0, a);
    AdvancedLive(rows1, tenant, id, 0, tenant, id);
    hide Genuine, Asserted, Live, Advanced;
    assert Accepts(lib, rows1, zero) && Accepts(lib, rows2, a);
    assert After(lib, rows, a) == rows1 && After(lib, rows1, zero) == rows2;
    hide Accepts, After;
    assert [a, zero, a][1..] == [zero, a] && [zero, a][1..] == [a] && [a][1..] == [];
    assert Accepted(lib, After(lib, rows2, a), [], tenant, id) == [];
    assert Accepted(lib, rows2, [a], tenant, id) == [Asserted(a)];
    assert Accepted(lib, rows1, [zero, a], tenant, id) == [0] + [Asserted(a)];
  }
}
