/** A concrete registration: the maps of the repository's own builders in the
    preferred serialization go through verification unchanged. */
module AttestationReference {
  import opened Prelude
  import opened Cbor
  import opened CborEncoding
  import opened CborRoundTrip
  import opened Attestation
  import opened AttestationOrder
  import opened AttestationRoundTrip
  import Base64
  import BigEndian
  import Utf8

  function KeyMap(x: Bytes, y: Bytes): Value {
    Map([Entry(UnsignedInt(1), UnsignedInt(2)), Entry(UnsignedInt(3), NegativeInt(-7)),
         Entry(NegativeInt(-1), UnsignedInt(1)),
         Entry(NegativeInt(-2), ByteString(x)), Entry(NegativeInt(-3), ByteString(y))])
  }

  function ObjectMap(fmt: Bytes, authData: Bytes, attStmt: Value): Value {
    Map([Entry(TextString(FMT), TextString(fmt)), Entry(TextString(AUTH_DATA), ByteString(authData)),
         Entry(TextString(ATT_STMT), attStmt)])
  }

  lemma KeyMapCarriesKey(x: Bytes, y: Bytes)
    ensures CarriesKey(KeyMap(x, y).entries, x, y)
  {
    var entries := KeyMap(x, y).entries;
    assert entries[0] == Entry(UnsignedInt(1), UnsignedInt(2)) && entries[2] == Entry(NegativeInt(-1), UnsignedInt(1));
    assert entries[3] == Entry(NegativeInt(-2), ByteString(x)) && entries[4] == Entry(NegativeInt(-3), ByteString(y));
  }

  lemma ObjectMapCarriesObject(fmt: Bytes, authData: Bytes, attStmt: Value)
    ensures CarriesObject(ObjectMap(fmt, authData, attStmt).entries, fmt, authData, attStmt)
  {
    var entries := ObjectMap(fmt, authData, attStmt).entries;
    assert entries[0].key.text == FMT && entries[1].key.text == AUTH_DATA && entries[2].key.text == ATT_STMT;
    assert |FMT| == 3 && |AUTH_DATA| == 8 && |ATT_STMT| == 7;
  }

  /** The bytes the repository's own key builder writes. */
  function KeyBytes(x: Bytes, y: Bytes): Bytes {
    [0xa5, 0x01, 0x02, 0x03, 0x26, 0x20, 0x01, 0x21, 0x58, 32] + x + [0x22, 0x58, 32] + y
  }

  lemma LeafEncodings(n: nat, b: Bytes)
    requires n <= 23 && |b| == 32
    ensures Supported(UnsignedInt(n)) && EncodeValue(UnsignedInt(n)) == [n]
    ensures Supported(NegativeInt(-1 - n)) && EncodeValue(NegativeInt(-1 - n)) == [0x20 + n]
    ensures Supported(ByteString(b)) && EncodeValue(ByteString(b)) == [0x58, 32] + b
  {
    assert BigEndian.Encode(32, 1) == [32] by {
      assert BigEndian.Encode(0, 0) == [];
    }
    hide BigEndian.Encode;
    assert EncodeHead(2, 32) == [0x58, 32];
  }

  lemma EntryParts(key: Value, value: Value)
    requires Supported(key) && Supported(value)
    ensures SupportedEntry(Entry(key, value))
    ensures EncodeEntry(Entry(key, value)) == EncodeValue(key) + EncodeValue(value)
  {
  }

  lemma KeyEntryBytes(x: Bytes, y: Bytes)
    requires |x| == 32 && |y| == 32
    ensures var e := KeyMap(x, y).entries;
            && (forall i | 0 <= i < 5 :: SupportedEntry(e[i]))
            && EncodeEntry(e[0]) == [0x01, 0x02] && EncodeEntry(e[1]) == [0x03, 0x26]
            && EncodeEntry(e[2]) == [0x20, 0x01]
            && EncodeEntry(e[3]) == [0x21, 0x58, 32] + x
            && EncodeEntry(e[4]) == [0x22, 0x58, 32] + y
  {
    hide EncodeValue, Supported, EncodeEntry, SupportedEntry;
    LeafEncodings(1, x);
    LeafEncodings(2, y);
    LeafEncodings(3, x);
    LeafEncodings(6, x);
    LeafEncodings(0, x);
    EntryParts(UnsignedInt(1), UnsignedInt(2));
    EntryParts(UnsignedInt(3), NegativeInt(-7));
    EntryParts(NegativeInt(-1), UnsignedInt(1));
    EntryParts(NegativeInt(-2), ByteString(x));
    EntryParts(NegativeInt(-3), ByteString(y));
    assert [0x21] + ([0x58, 32] + x) == [0x21, 0x58, 32] + x;
    assert [0x22] + ([0x58, 32] + y) == [0x22, 0x58, 32] + y;
  }

  lemma KeyMapEncoding(x: Bytes, y: Bytes)
    requires |x| == 32 && |y| == 32
    ensures Supported(KeyMap(x, y)) && EncodeValue(KeyMap(x, y)) == KeyBytes(x, y)
  {
    var e := KeyMap(x, y).entries;
    hide *;
    KeyEntryBytes(x, y);
    FiveParts(e);
    FiveEntries(e);
    KeyBytesInParts(x, y);
  }

  lemma FiveParts(e: seq<Entry>)
    requires |e| == 5 && forall i | 0 <= i < 5 :: SupportedEntry(e[i])
    ensures SupportedEntries(e)
    ensures EncodeEntries(e) == EncodeEntry(e[0]) + (EncodeEntry(e[1]) + (EncodeEntry(e[2])
                                + (EncodeEntry(e[3]) + (EncodeEntry(e[4]) + []))))
  {
    hide EncodeEntry, SupportedEntry, EncodeEntries, SupportedEntries;
    NoEntries();
    assert e[5..] == [] && e[0..] == e;
    EntryEncoding(e, 4, EncodeEntry(e[4]));
    EntryEncoding(e, 3, EncodeEntry(e[3]));
    EntryEncoding(e, 2, EncodeEntry(e[2]));
    EntryEncoding(e, 1, EncodeEntry(e[1]));
    EntryEncoding(e, 0, EncodeEntry(e[0]));
  }

  lemma KeyBytesInParts(x: Bytes, y: Bytes)
    ensures [0xa5] + ([0x01, 0x02] + ([0x03, 0x26] + ([0x20, 0x01]
              + (([0x21, 0x58, 32] + x) + (([0x22, 0x58, 32] + y) + [])))))
            == KeyBytes(x, y)
  {
  }

  lemma NoEntries()
    ensures SupportedEntries([]) && EncodeEntries([]) == []
  {
  }

  lemma FiveEntries(entries: seq<Entry>)
    requires SupportedEntries(entries) && |entries| == 5
    ensures Supported(Map(entries))
    ensures EncodeValue(Map(entries)) == [0xa5] + EncodeEntries(entries)
  {
    hide SupportedEntries, EncodeEntries;
  }

  lemma EntryEncoding(e: seq<Entry>, i: nat, b: Bytes)
    requires i < |e| && SupportedEntries(e[i + 1..])
    requires SupportedEntry(e[i]) && EncodeEntry(e[i]) == b
    ensures SupportedEntries(e[i..])
    ensures EncodeEntries(e[i..]) == b + EncodeEntries(e[i + 1..])
  {
    assert e[i..][1..] == e[i + 1..];
  }

  lemma SupportedOneByOne(entries: seq<Entry>)
    requires |entries| == 3 && forall i | 0 <= i < 3 :: SupportedEntry(entries[i])
    ensures Supported(Map(entries))
  {
    hide SupportedEntry;
    assert SupportedEntries(entries[3..]);
    assert entries[2..][1..] == entries[3..] && entries[1..][1..] == entries[2..];
    assert SupportedEntries(entries[2..]);
    assert SupportedEntries(entries[1..]);
  }

  lemma ObjectMapIsSupported(fmt: Bytes, authData: Bytes, attStmt: Value)
    requires Utf8.Valid(fmt) && |fmt| < TWO_TO_THE_64 && |authData| < TWO_TO_THE_64
    requires Supported(attStmt)
    ensures Supported(ObjectMap(fmt, authData, attStmt))
  {
    hide Ascii, Utf8.Valid, Supported, SupportedEntry;
    KeysAreSupported();
    StringsAreSupported(fmt, authData);
    EntryParts(TextString(FMT), TextString(fmt));
    EntryParts(TextString(AUTH_DATA), ByteString(authData));
    EntryParts(TextString(ATT_STMT), attStmt);
    SupportedOneByOne(ObjectMap(fmt, authData, attStmt).entries);
  }

  lemma KeysAreSupported()
    ensures Supported(TextString(FMT)) && Supported(TextString(AUTH_DATA))
    ensures Supported(TextString(ATT_STMT))
  {
    hide Supported, Ascii;
    assert Supported(TextString(FMT)) by { LiteralIsSupported("fmt"); }
    assert Supported(TextString(AUTH_DATA)) by { LiteralIsSupported("authData"); }
    assert Supported(TextString(ATT_STMT)) by { LiteralIsSupported("attStmt"); }
  }

  lemma LiteralIsSupported(s: string)
    requires |s| < 256 && forall i :: 0 <= i < |s| ==> s[i] as int < 128
    ensures Supported(TextString(Ascii(s)))
  {
    hide Ascii, Utf8.Valid, Supported;
    Utf8.AsciiIsValid(Ascii(s));
    StringsAreSupported(Ascii(s), []);
  }

  lemma StringsAreSupported(text: Bytes, bytes: Bytes)
    requires Utf8.Valid(text) && |text| < TWO_TO_THE_64 && |bytes| < TWO_TO_THE_64
    ensures Supported(TextString(text)) && Supported(ByteString(bytes))
  {
  }

  /** The response an authenticator and browser build with the preferred
      serialization. */
  function Built(p: Primitives, c: Ceremony): Response
    requires WellFormed(c)
    requires Supported(ObjectMap(c.fmt, AuthData(p, c, KeyBytes(c.x, c.y)), c.attStmt))
  {
    var o := ObjectMap(c.fmt, AuthData(p, c, KeyBytes(c.x, c.y)), c.attStmt);
    Response(Base64.Encode(Base64.UrlSafe, c.clientData),
             Base64.Encode(Base64.UrlSafe, EncodeValue(o)))
  }

  /** Of any two byte strings that start with encodings of the two maps, the
      response made from them is a wire form of the ceremony. */
  lemma FormReports(p: Primitives, c: Ceremony, response: Response, key: Bytes, obj: Bytes, o: Value)
    requires WellFormed(c) && response == Response(Base64.Encode(Base64.UrlSafe, c.clientData),
                                                   Base64.Encode(Base64.UrlSafe, obj))
    requires p.parseClientData(c.clientData)
             == Some(ClientData("webauthn.create", c.origin, Base64.Encode(Base64.UrlSafe, c.challenge)))
    requires o == ObjectMap(c.fmt, AuthData(p, c, key), c.attStmt)
    requires Encodes(KeyMap(c.x, c.y), key) && Encodes(o, obj)
    ensures Reports(p, c, response, key, obj)
  {
    hide Encodes, CarriesKey, CarriesObject, Base64.Encode, AuthData;
    KeyMapCarriesKey(c.x, c.y);
    ObjectMapCarriesObject(c.fmt, AuthData(p, c, key), c.attStmt);
    EmptyUnit(key);
    EmptyUnit(obj);
    assert Encodes(Map(KeyMap(c.x, c.y).entries), key) && Encodes(Map(o.entries), obj);
  }

  /** A "none" registration goes through unchanged: what is stored is the id,
      the key as 04 || x || y, the aaguid and the counter that were encoded. */
  lemma RegistrationRoundTrip(p: Primitives, c: Ceremony)
    requires WellFormed(c) && |p.sha256(c.rpId)| == 32 && c.fmt == NONE && Supported(c.attStmt)
    requires p.parseClientData(c.clientData)
             == Some(ClientData("webauthn.create", c.origin, Base64.Encode(Base64.UrlSafe, c.challenge)))
    ensures Supported(ObjectMap(c.fmt, AuthData(p, c, KeyBytes(c.x, c.y)), c.attStmt))
    ensures VerifyAttestation(p, Built(p, c), c.challenge, c.origin, c.rpId) == Ok(Stored(c))
  {
    var key := KeyBytes(c.x, c.y);
    var authData := AuthData(p, c, key);
    Utf8.AsciiIsValid(NONE);
    hide Supported, EncodeValue, Encodes, Reports, VerifyAttestation, ObjectMap, KeyMap,
      Base64.Encode, AuthData, KeyBytes, Utf8.Valid, BigEndian.Encode;
    ObjectMapIsSupported(c.fmt, authData, c.attStmt);
    KeyMapEncoding(c.x, c.y);
    var o := ObjectMap(c.fmt, authData, c.attStmt);
    EncoderEncodes(KeyMap(c.x, c.y));
    EncoderEncodes(o);
    FormReports(p, c, Built(p, c), key, EncodeValue(o), o);
    AttestationInverse(p, c, Built(p, c), key, EncodeValue(o));
  }
}
