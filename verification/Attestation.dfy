/** Registration attestations: gateway/src/crypto/webauthn.rs from the parsed
    CBOR to the stored credential. */
module Attestation {
  import opened Prelude
  import opened Cbor
  import Base64
  import BigEndian

  /** What the gateway takes from libraries: SHA-256, the JSON reader for
      client data, and ECDSA P-256 (point and DER decoding, verification of a
      signature over a message). */
  datatype Primitives = Primitives(
    sha256: Bytes -> Bytes,
    parseClientData: Bytes -> Option<ClientData>,
    validPoint: Bytes -> bool,
    validDer: Bytes -> bool,
    verifies: (Bytes, Bytes, Bytes) -> bool)

  datatype ClientData = ClientData(kind: string, origin: string, challenge: string)

  /** The browser's response; both fields are base64url text. */
  datatype Response = Response(clientDataJson: string, attestationObject: string)

  datatype AttestationResult = AttestationResult(
    credentialId: string, publicKey: string, aaguid: string, signCount: nat, fmt: Bytes)

  datatype Failure =
    | BadClientData | WrongType | OriginMismatch | ChallengeMismatch
    | BadObjectEncoding | BadCbor(e: Error)
    | NotAMap | NotText | NotBytes | NotInt
    | MissingFmt | MissingAuthData
    | AuthDataTooShort | RpIdMismatch | NotUserVerified | NoAttestedData | CredentialIdOverflow
    | WrongKeyType | WrongCurve | MissingX | MissingY | BadCoordinate
    | MissingAlg | MissingSig | CertificateChain | WrongAlg | BadPoint | BadDer | BadSignature
    | UnsupportedFormat

  type Checked<T> = Outcome<T, Failure>

  function Lift<T>(r: Parsed<T>): (c: Checked<T>) {
    match r
    case Ok(v) => Ok(v.0)
    case Err(e) => Err(BadCbor(e))
    case Panic => Panic
  }

  /** `cbor_as_int`: an unsigned value is cast to i64 and wraps from 2^63. */
  function AsInt(v: Value): Option<int> {
    match v
    case UnsignedInt(n) => Some(if n < 0x8000_0000_0000_0000 then n else n - 0x1_0000_0000_0000_0000)
    case NegativeInt(i) => Some(i)
    case _ => None
  }

  // ------------------------------------------------ attestation object

  datatype Object = Object(fmt: Option<Bytes>, authData: Option<Bytes>, attStmt: Value)

  const FMT := Ascii("fmt")
  const AUTH_DATA := Ascii("authData")
  const ATT_STMT := Ascii("attStmt")

  function ObjectEntry(o: Object, e: Entry): Checked<Object> {
    if !e.key.TextString? then Err(NotText)
    else if e.key.text == FMT then
      if e.value.TextString? then Ok(o.(fmt := Some(e.value.text))) else Err(NotText)
    else if e.key.text == AUTH_DATA then
      if e.value.ByteString? then Ok(o.(authData := Some(e.value.bytes))) else Err(NotBytes)
    else if e.key.text == ATT_STMT then Ok(o.(attStmt := e.value))
    else Ok(o)
  }

  function ObjectEntries(o: Object, entries: seq<Entry>): Checked<Object>
    decreases |entries|
  {
    if entries == [] then Ok(o)
    else
      var next := ObjectEntry(o, entries[0]);
      if next.Ok? then ObjectEntries(next.value, entries[1..]) else next
  }

  const NO_OBJECT := Object(None, None, Null)

  /** The object with both required fields present. */
  function ObjectOf(value: Value): (r: Checked<Object>)
    ensures r.Ok? ==> r.value.fmt.Some? && r.value.authData.Some?
  {
    if !value.Map? then Err(NotAMap)
    else
      var o := ObjectEntries(NO_OBJECT, value.entries);
      if !o.Ok? then o
      else if o.value.fmt.None? then Err(MissingFmt)
      else if o.value.authData.None? then Err(MissingAuthData)
      else o
  }

  function ParsedObject(data: Bytes): (r: Checked<Object>)
    ensures r.Ok? ==> r.value.fmt.Some? && r.value.authData.Some?
  {
    var v := Lift(Parse(data));
    if v.Ok? then ObjectOf(v.value) else Rejected(v)
  }

  function Rejected<T, U>(r: Checked<T>): Checked<U>
    requires !r.Ok?
  {
    if r.Err? then Err(r.error) else Panic
  }

  method ParseAttestationObject(data: Bytes) returns (r: Checked<Object>)
    ensures r == ParsedObject(data)
  {
    hide Parse;
    var parsed := CborParse(data);
    var v := Lift(parsed);
    if !v.Ok? {
      return Rejected(v);
    }
    if !v.value.Map? {
      return Err(NotAMap);
    }
    var entries := v.value.entries;
    var fmt, authData, attStmt := None, None, Null;
    for i := 0 to |entries|
      invariant ObjectEntries(NO_OBJECT, entries) == ObjectEntries(Object(fmt, authData, attStmt), entries[i..])
    {
      var Entry(key, value) := entries[i];
      assert entries[i..][1..] == entries[i + 1..];
      if !key.TextString? {
        return Err(NotText);
      }
      if key.text == FMT {
        if !value.TextString? {
          return Err(NotText);
        }
        fmt := Some(value.text);
      } else if key.text == AUTH_DATA {
        if !value.ByteString? {
          return Err(NotBytes);
        }
        authData := Some(value.bytes);
      } else if key.text == ATT_STMT {
        attStmt := value;
      }
    }
    if fmt.None? {
      return Err(MissingFmt);
    }
    if authData.None? {
      return Err(MissingAuthData);
    }
    r := Ok(Object(fmt, authData, attStmt));
  }

  // -------------------------------------------------------- COSE key

  datatype Key = Key(kty: Option<int>, crv: Option<int>, x: Option<Bytes>, y: Option<Bytes>)

  const NO_KEY := Key(None, None, None, None)

  function KeyEntry(k: Key, e: Entry): Checked<Key> {
    var number := AsInt(e.key);
    if number.None? then Err(NotInt)
    else if number.value == 1 then
      if AsInt(e.value).None? then Err(NotInt) else Ok(k.(kty := AsInt(e.value)))
    else if number.value == -1 then
      if AsInt(e.value).None? then Err(NotInt) else Ok(k.(crv := AsInt(e.value)))
    else if number.value == -2 then
      if e.value.ByteString? then Ok(k.(x := Some(e.value.bytes))) else Err(NotBytes)
    else if number.value == -3 then
      if e.value.ByteString? then Ok(k.(y := Some(e.value.bytes))) else Err(NotBytes)
    else Ok(k)
  }

  function KeyEntries(k: Key, entries: seq<Entry>): Checked<Key>
    decreases |entries|
  {
    if entries == [] then Ok(k)
    else
      var next := KeyEntry(k, entries[0]);
      if next.Ok? then KeyEntries(next.value, entries[1..]) else next
  }

  /** The uncompressed SEC1 point of a complete P-256 key. */
  function Sec1OfKey(k: Key): (r: Checked<Bytes>)
    ensures r.Ok? ==> |r.value| == 65
  {
    if k.kty != Some(2) then Err(WrongKeyType)
    else if k.crv != Some(1) then Err(WrongCurve)
    else if k.x.None? then Err(MissingX)
    else if k.y.None? then Err(MissingY)
    else if |k.x.value| != 32 || |k.y.value| != 32 then Err(BadCoordinate)
    else Ok([0x04] + k.x.value + k.y.value)
  }

  function Sec1Of(cose: Value): Checked<Bytes> {
    if !cose.Map? then Err(NotAMap)
    else
      var k := KeyEntries(NO_KEY, cose.entries);
      if k.Ok? then Sec1OfKey(k.value) else Rejected(k)
  }

  method CoseKeyToSec1(cose: Value) returns (r: Checked<Bytes>)
    ensures r == Sec1Of(cose)
  {
    if !cose.Map? {
      return Err(NotAMap);
    }
    var entries := cose.entries;
    var kty, crv, x, y := None, None, None, None;
    for i := 0 to |entries|
      invariant KeyEntries(NO_KEY, entries) == KeyEntries(Key(kty, crv, x, y), entries[i..])
    {
      var Entry(k, v) := entries[i];
      assert entries[i..][1..] == entries[i + 1..];
      var key := AsInt(k);
      if key.None? {
        return Err(NotInt);
      }
      if key.value == 1 || key.value == -1 {
        if AsInt(v).None? {
          return Err(NotInt);
        }
        if key.value == 1 {
          kty := AsInt(v);
        } else {
          crv := AsInt(v);
        }
      } else if key.value == -2 || key.value == -3 {
        if !v.ByteString? {
          return Err(NotBytes);
        }
        if key.value == -2 {
          x := Some(v.bytes);
        } else {
          y := Some(v.bytes);
        }
      }
    }
    r := Sec1OfKey(Key(kty, crv, x, y));
  }

  // ----------------------------------------------- packed statements

  datatype Statement = Statement(alg: Option<int>, sig: Option<Bytes>, hasX5c: bool, hasEcdaa: bool)

  const NO_STATEMENT := Statement(None, None, false, false)

  const ALG := Ascii("alg")
  const SIG := Ascii("sig")
  const X5C := Ascii("x5c")
  const ECDAA := Ascii("ecdaaKeyId")

  function StatementEntry(s: Statement, e: Entry): Checked<Statement> {
    if !e.key.TextString? then Err(NotText)
    else if e.key.text == ALG then
      if AsInt(e.value).None? then Err(NotInt) else Ok(s.(alg := AsInt(e.value)))
    else if e.key.text == SIG then
      if e.value.ByteString? then Ok(s.(sig := Some(e.value.bytes))) else Err(NotBytes)
    else if e.key.text == X5C then Ok(s.(hasX5c := true))
    else if e.key.text == ECDAA then Ok(s.(hasEcdaa := true))
    else Ok(s)
  }

  function StatementEntries(s: Statement, entries: seq<Entry>): Checked<Statement>
    decreases |entries|
  {
    if entries == [] then Ok(s)
    else
      var next := StatementEntry(s, entries[0]);
      if next.Ok? then StatementEntries(next.value, entries[1..]) else next
  }

  function JudgeStatement(p: Primitives, s: Statement, message: Bytes, sec1: Bytes): Checked<()> {
    if s.alg.None? then Err(MissingAlg)
    else if s.sig.None? then Err(MissingSig)
    else if s.hasX5c || s.hasEcdaa then Err(CertificateChain)
    else if s.alg.value != -7 then Err(WrongAlg)
    else if !p.validPoint(sec1) then Err(BadPoint)
    else if !p.validDer(s.sig.value) then Err(BadDer)
    else if !p.verifies(sec1, message, s.sig.value) then Err(BadSignature)
    else Ok(())
  }

  function PackedVerdict(p: Primitives, attStmt: Value, authData: Bytes, clientData: Bytes, sec1: Bytes): Checked<()> {
    if !attStmt.Map? then Err(NotAMap)
    else
      var s := StatementEntries(NO_STATEMENT, attStmt.entries);
      if s.Ok? then JudgeStatement(p, s.value, authData + p.sha256(clientData), sec1) else Rejected(s)
  }

  method VerifyPackedAttestation(p: Primitives, attStmt: Value, authData: Bytes, clientData: Bytes, sec1: Bytes)
    returns (r: Checked<()>)
    ensures r == PackedVerdict(p, attStmt, authData, clientData, sec1)
  {
    if !attStmt.Map? {
      return Err(NotAMap);
    }
    var entries := attStmt.entries;
    var s := NO_STATEMENT;
    for i := 0 to |entries|
      invariant StatementEntries(NO_STATEMENT, entries) == StatementEntries(s, entries[i..])
    {
      assert entries[i..][1..] == entries[i + 1..];
      var next := StatementEntry(s, entries[i]);
      if !next.Ok? {
        return Rejected(next);
      }
      s := next.value;
    }
    r := JudgeStatement(p, s, authData + p.sha256(clientData), sec1);
  }

  // ----------------------------------------------------- the pipeline

  datatype Credential = Credential(id: Bytes, coseKey: Bytes, signCount: nat, aaguid: string)

  const HEX := "0123456789abcdef"

  function Hex(b: Bytes): string {
    if b == [] then "" else [HEX[b[0] / 16], HEX[b[0] % 16]] + Hex(b[1..])
  }

  predicate UserVerified(flags: byte) {
    flags / 0x04 % 2 == 1
  }

  predicate AttestedDataPresent(flags: byte) {
    flags / 0x40 % 2 == 1
  }

  /** `extract_attested_credential_data`. */
  function AttestedCredential(authData: Bytes): (r: Checked<Credential>) {
    if |authData| < 37 + 18 then Err(AuthDataTooShort)
    else if !AttestedDataPresent(authData[32]) then Err(NoAttestedData)
    else
      var idLen := BigEndian.Decode(authData[53..55]);
      if |authData| < 55 + idLen then Err(CredentialIdOverflow)
      else Ok(Credential(authData[55..55 + idLen], authData[55 + idLen..],
                         BigEndian.Decode(authData[33..37]), Hex(authData[37..53])))
  }

  const NONE := Ascii("none")
  const PACKED := Ascii("packed")

  /** Step 1: the decoded client data, if it is for this ceremony. */
  function CheckClientData(p: Primitives, encoded: string, challenge: Bytes, origin: string): Checked<Bytes> {
    var bytes := Base64.Decode(Base64.UrlSafe, encoded);
    if bytes.None? then Err(BadClientData)
    else
      var data := p.parseClientData(bytes.value);
      if data.None? then Err(BadClientData)
      else if data.value.kind != "webauthn.create" then Err(WrongType)
      else if data.value.origin != origin then Err(OriginMismatch)
      else if data.value.challenge != Base64.Encode(Base64.UrlSafe, challenge) then Err(ChallengeMismatch)
      else Ok(bytes.value)
  }

  /** Steps 3 and 4: the fixed header of authData. */
  function CheckHeader(p: Primitives, authData: Bytes, rpId: Bytes): Checked<()> {
    if |authData| < 37 then Err(AuthDataTooShort)
    else if authData[..32] != p.sha256(rpId) then Err(RpIdMismatch)
    else if !UserVerified(authData[32]) then Err(NotUserVerified)
    else Ok(())
  }

  /** Steps 5 to 7: the credential in authData, and the verdict of its format. */
  function CheckCredential(p: Primitives, o: Object, clientData: Bytes): Checked<AttestationResult>
    requires o.fmt.Some? && o.authData.Some?
  {
    var cred := AttestedCredential(o.authData.value);
    if !cred.Ok? then Rejected(cred)
    else
      var cose := Lift(Parse(cred.value.coseKey));
      if !cose.Ok? then Rejected(cose)
      else
        var sec1 := Sec1Of(cose.value);
        if !sec1.Ok? then Rejected(sec1)
        else
          var verdict :=
            if o.fmt.value == NONE then Ok(())
            else if o.fmt.value == PACKED then
              PackedVerdict(p, o.attStmt, o.authData.value, clientData, sec1.value)
            else Err(UnsupportedFormat);
          if !verdict.Ok? then Rejected(verdict)
          else Ok(AttestationResult(Base64.Encode(Base64.UrlSafe, cred.value.id),
                                    Base64.Encode(Base64.UrlSafe, sec1.value),
                                    cred.value.aaguid, cred.value.signCount, o.fmt.value))
  }

  /** `verify_attestation`. */
  function VerifyAttestation(p: Primitives, response: Response, challenge: Bytes, origin: string, rpId: Bytes)
    : Checked<AttestationResult>
  {
    var clientData := CheckClientData(p, response.clientDataJson, challenge, origin);
    if !clientData.Ok? then Rejected(clientData)
    else
      var objectBytes := Base64.Decode(Base64.UrlSafe, response.attestationObject);
      if objectBytes.None? then Err(BadObjectEncoding)
      else
        var o := ParsedObject(objectBytes.value);
        if !o.Ok? then Rejected(o)
        else
          var header := CheckHeader(p, o.value.authData.value, rpId);
          if !header.Ok? then Rejected(header)
          else CheckCredential(p, o.value, clientData.value)
  }
}
