/** Base64 (RFC 4648, sections 4 and 5) as the gateway's decoders read it:
    canonical encodings only (section 3.5), with padding required by the
    padded engines and forbidden by the unpadded one. */
module Base64 {
  import opened Prelude

  datatype Alphabet = Standard | UrlSafe

  function Digit(a: Alphabet, v: nat): (c: char)
    requires v < 64
    ensures c != '='
  {
    if v < 26 then 'A' + v as char
    else if v < 52 then 'a' + (v - 26) as char
    else if v < 62 then '0' + (v - 52) as char
    else if v == 62 then (if a.Standard? then '+' else '-')
    else (if a.Standard? then '/' else '_')
  }

  function ValueOf(a: Alphabet, c: char): (v: Option<nat>)
    ensures v.Some? ==> v.value < 64 && Digit(a, v.value) == c
  {
    if 'A' <= c <= 'Z' then Some((c - 'A') as nat)
    else if 'a' <= c <= 'z' then Some((c - 'a') as nat + 26)
    else if '0' <= c <= '9' then Some((c - '0') as nat + 52)
    else if c == (if a.Standard? then '+' else '-') then Some(62)
    else if c == (if a.Standard? then '/' else '_') then Some(63)
    else None
  }

  lemma ValueOfDigit(a: Alphabet, v: nat)
    requires v < 64
    ensures ValueOf(a, Digit(a, v)) == Some(v)
  {
  }

  /** Four digits for three bytes. */
  function EncodeGroup(a: Alphabet, x: byte, y: byte, z: byte): (s: string)
    ensures |s| == 4
  {
    [Digit(a, x / 4), Digit(a, x % 4 * 16 + y / 16), Digit(a, y % 16 * 4 + z / 64), Digit(a, z % 64)]
  }

  /** Three bytes from four digits. */
  function DecodeGroup(a: Alphabet, s: string): (r: Option<Bytes>)
    requires |s| == 4
    ensures r.Some? ==> |r.value| == 3
  {
    var v0, v1, v2, v3 := ValueOf(a, s[0]), ValueOf(a, s[1]), ValueOf(a, s[2]), ValueOf(a, s[3]);
    if v0.None? || v1.None? || v2.None? || v3.None? then None
    else Some([v0.value * 4 + v1.value / 16, v1.value % 16 * 16 + v2.value / 4,
               v2.value % 4 * 64 + v3.value])
  }

  /** The encoding without padding: a last group of one or two bytes is padded
      with zero bits and its unused digits are dropped. */
  function Encode(a: Alphabet, b: Bytes): string {
    if |b| == 0 then ""
    else if |b| == 1 then EncodeGroup(a, b[0], 0, 0)[..2]
    else if |b| == 2 then EncodeGroup(a, b[0], b[1], 0)[..3]
    else EncodeGroup(a, b[0], b[1], b[2]) + Encode(a, b[3..])
  }

  function Padding(n: nat): string {
    if n % 4 == 2 then "==" else if n % 4 == 3 then "=" else ""
  }

  function EncodePadded(a: Alphabet, b: Bytes): string {
    var s := Encode(a, b);
    s + Padding(|s|)
  }

  /** The unpadded engine: no '=', and no stray bits in the last digit. */
  function Decode(a: Alphabet, s: string): Option<Bytes> {
    if |s| == 0 then Some([])
    else if |s| == 1 then None
    else if |s| <= 3 then DecodeShort(a, s)
    else
      var first, rest := DecodeGroup(a, s[..4]), Decode(a, s[4..]);
      if first.None? || rest.None? then None else Some(first.value + rest.value)
  }

  /** A last group of two or three digits. */
  function DecodeShort(a: Alphabet, s: string): (r: Option<Bytes>)
    requires 2 <= |s| <= 3
    ensures r.Some? ==> |r.value| == |s| - 1
  {
    var v0, v1 := ValueOf(a, s[0]), ValueOf(a, s[1]);
    if v0.None? || v1.None? then None
    else if |s| == 2 then
      if v1.value % 16 != 0 then None else Some([v0.value * 4 + v1.value / 16])
    else
      var v2 := ValueOf(a, s[2]);
      if v2.None? || v2.value % 4 != 0 then None
      else Some([v0.value * 4 + v1.value / 16, v1.value % 16 * 16 + v2.value / 4])
  }

  /** At most two trailing '=' removed. */
  function Unpad(s: string): string {
    if |s| >= 2 && s[|s| - 2..] == "==" then s[..|s| - 2]
    else if |s| >= 1 && s[|s| - 1] == '=' then s[..|s| - 1]
    else s
  }

  /** The padded engines. */
  function DecodePadded(a: Alphabet, s: string): Option<Bytes> {
    if |s| % 4 != 0 then None else Decode(a, Unpad(s))
  }

  /** `decode_b64_flexible`: the three engines in the order the gateway tries
      them. */
  function DecodeFlexible(s: string): Option<Bytes> {
    var first := Decode(UrlSafe, s);
    if first.Some? then first
    else
      var second := DecodePadded(Standard, s);
      if second.Some? then second else DecodePadded(UrlSafe, s)
  }

  // ------------------------------------------------------- round trips

  lemma Split(x: byte, y: byte, z: byte)
    ensures var v0, v1, v2, v3 := x / 4, x % 4 * 16 + y / 16, y % 16 * 4 + z / 64, z % 64;
            && v0 < 64 && v1 < 64 && v2 < 64 && v3 < 64
            && v0 * 4 + v1 / 16 == x && v1 % 16 * 16 + v2 / 4 == y && v2 % 4 * 64 + v3 == z
            && (y == 0 ==> v1 % 16 == 0) && (z == 0 ==> v2 % 4 == 0)
  {
  }

  /** Digits are read back as the bits they stand for. */
  lemma DigitsAreRead(a: Alphabet, v0: nat, v1: nat, v2: nat, v3: nat)
    requires v0 < 64 && v1 < 64 && v2 < 64 && v3 < 64
    ensures DecodeGroup(a, [Digit(a, v0), Digit(a, v1), Digit(a, v2), Digit(a, v3)])
            == Some([v0 * 4 + v1 / 16, v1 % 16 * 16 + v2 / 4, v2 % 4 * 64 + v3])
    ensures v1 % 16 == 0 ==> DecodeShort(a, [Digit(a, v0), Digit(a, v1)]) == Some([v0 * 4 + v1 / 16])
    ensures v2 % 4 == 0 ==>
              DecodeShort(a, [Digit(a, v0), Digit(a, v1), Digit(a, v2)])
              == Some([v0 * 4 + v1 / 16, v1 % 16 * 16 + v2 / 4])
  {
    hide ValueOf, Digit;
    ValueOfDigit(a, v0);
    ValueOfDigit(a, v1);
    ValueOfDigit(a, v2);
    ValueOfDigit(a, v3);
  }

  lemma GroupRoundTrip(a: Alphabet, x: byte, y: byte, z: byte)
    ensures DecodeGroup(a, EncodeGroup(a, x, y, z)) == Some([x, y, z])
    ensures z == 0 ==> DecodeShort(a, EncodeGroup(a, x, y, z)[..3]) == Some([x, y])
    ensures y == 0 && z == 0 ==> DecodeShort(a, EncodeGroup(a, x, y, z)[..2]) == Some([x])
  {
    hide ValueOf, Digit, DecodeGroup, DecodeShort;
    Split(x, y, z);
    var v0, v1, v2, v3 := x / 4, x % 4 * 16 + y / 16, y % 16 * 4 + z / 64, z % 64;
    DigitsAreRead(a, v0, v1, v2, v3);
    var g := EncodeGroup(a, x, y, z);
    assert g[..3] == [Digit(a, v0), Digit(a, v1), Digit(a, v2)];
    assert g[..2] == [Digit(a, v0), Digit(a, v1)];
  }

  lemma {:induction false} DecodeEncode(a: Alphabet, b: Bytes)
    ensures Decode(a, Encode(a, b)) == Some(b)
  {
    hide EncodeGroup, DecodeGroup, DecodeShort;
    if 1 <= |b| <= 2 {
      GroupRoundTrip(a, b[0], if |b| > 1 then b[1] else 0, 0);
      assert b == if |b| == 1 then [b[0]] else [b[0], b[1]];
    } else if |b| > 2 {
      GroupRoundTrip(a, b[0], b[1], b[2]);
      DecodeEncode(a, b[3..]);
      var g, s := EncodeGroup(a, b[0], b[1], b[2]), Encode(a, b);
      assert s[..4] == g && s[4..] == Encode(a, b[3..]);
      assert b == [b[0], b[1], b[2]] + b[3..];
    }
  }

  /** The bits of four digits are written as those digits. */
  lemma BitsAreWritten(a: Alphabet, v0: nat, v1: nat, v2: nat, v3: nat)
    requires v0 < 64 && v1 < 64 && v2 < 64 && v3 < 64
    ensures EncodeGroup(a, v0 * 4 + v1 / 16, v1 % 16 * 16 + v2 / 4, v2 % 4 * 64 + v3)
            == [Digit(a, v0), Digit(a, v1), Digit(a, v2), Digit(a, v3)]
  {
    hide Digit;
    Regroup(v0, v1, v2, v3);
  }

  lemma DecodedGroup(a: Alphabet, s: string)
    requires |s| == 4 && DecodeGroup(a, s).Some?
    ensures var b := DecodeGroup(a, s).value; s == EncodeGroup(a, b[0], b[1], b[2])
  {
    hide ValueOf, Digit, EncodeGroup;
    BitsAreWritten(a, ValueOf(a, s[0]).value, ValueOf(a, s[1]).value, ValueOf(a, s[2]).value, ValueOf(a, s[3]).value);
  }

  lemma DecodedShort(a: Alphabet, s: string)
    requires 2 <= |s| <= 3 && DecodeShort(a, s).Some?
    ensures var b := DecodeShort(a, s).value; s == EncodeGroup(a, b[0], if |b| > 1 then b[1] else 0, 0)[..|s|]
  {
    hide ValueOf, Digit, EncodeGroup;
    var v2 := if |s| == 2 then 0 else ValueOf(a, s[2]).value;
    BitsAreWritten(a, ValueOf(a, s[0]).value, ValueOf(a, s[1]).value, v2, 0);
  }

  /** The decoder accepts nothing but what the encoder writes. */
  lemma {:induction false} DecodedIsEncoding(a: Alphabet, s: string)
    requires Decode(a, s).Some?
    ensures s == Encode(a, Decode(a, s).value)
  {
    hide EncodeGroup, DecodeGroup, DecodeShort;
    if |s| >= 4 {
      DecodedGroup(a, s[..4]);
      DecodedIsEncoding(a, s[4..]);
      var b := Decode(a, s).value;
      assert b[3..] == Decode(a, s[4..]).value;
      assert s == s[..4] + s[4..];
    } else if |s| >= 2 {
      DecodedShort(a, s);
    }
  }

  lemma Regroup(v0: nat, v1: nat, v2: nat, v3: nat)
    requires v0 < 64 && v1 < 64 && v2 < 64 && v3 < 64
    ensures var x, y, z := v0 * 4 + v1 / 16, v1 % 16 * 16 + v2 / 4, v2 % 4 * 64 + v3;
            x / 4 == v0 && x % 4 * 16 + y / 16 == v1 && y % 16 * 4 + z / 64 == v2 && z % 64 == v3
  {
  }

  lemma {:induction false} EncodingLength(a: Alphabet, b: Bytes)
    ensures |Encode(a, b)| % 4 != 1
    ensures forall i :: 0 <= i < |Encode(a, b)| ==> Encode(a, b)[i] != '='
  {
    hide Digit;
    if |b| >= 3 {
      EncodingLength(a, b[3..]);
    }
  }

  lemma UnpadPadded(e: string)
    requires |e| % 4 != 1 && forall i :: 0 <= i < |e| ==> e[i] != '='
    ensures Unpad(e + Padding(|e|)) == e && |e + Padding(|e|)| % 4 == 0
  {
    var s := e + Padding(|e|);
    if |e| % 4 == 2 {
      assert s[|s| - 2..] == "==" && s[..|s| - 2] == e;
    } else if |e| % 4 == 3 {
      assert s[|s| - 2..][0] == e[|e| - 1] && s[|s| - 1] == '=' && s[..|s| - 1] == e;
    } else {
      assert s == e;
      NothingToUnpad(e);
    }
  }

  lemma PaddedUnpad(s: string)
    requires |s| % 4 == 0
    ensures s == Unpad(s) + Padding(|Unpad(s)|)
  {
    if |s| >= 2 && s[|s| - 2..] == "==" {
      assert s == s[..|s| - 2] + s[|s| - 2..];
    } else if |s| >= 1 && s[|s| - 1] == '=' {
      assert s == s[..|s| - 1] + "=";
    } else {
      assert s == s + "";
    }
  }

  lemma NothingToUnpad(s: string)
    requires forall i :: 0 <= i < |s| ==> s[i] != '='
    ensures Unpad(s) == s
  {
    if |s| >= 2 {
      assert s[|s| - 2..][0] == s[|s| - 2];
    }
  }

  /** A padded engine accepts a string exactly when it is the padded encoding
      of the result. */
  lemma DecodePaddedIff(a: Alphabet, s: string, b: Bytes)
    ensures DecodePadded(a, s) == Some(b) <==> s == EncodePadded(a, b)
  {
    hide Encode, Decode, Unpad, Padding;
    EncodingLength(a, b);
    DecodeEncode(a, b);
    UnpadPadded(Encode(a, b));
    if DecodePadded(a, s) == Some(b) {
      PaddedUnpad(s);
      DecodedIsEncoding(a, Unpad(s));
    }
  }

  // ------------------------------------------------------ unambiguity

  /** Where both alphabets decode a string, they decode it alike. */
  lemma {:induction false} AlphabetsAgree(s: string)
    requires Decode(Standard, s).Some? && Decode(UrlSafe, s).Some?
    ensures Decode(Standard, s) == Decode(UrlSafe, s)
  {
    ValuesAgree(s);
    hide ValueOf;
    if |s| >= 4 {
      AlphabetsAgree(s[4..]);
    }
  }

  lemma ValuesAgree(s: string)
    ensures forall i | 0 <= i < |s| ::
      var v, w := ValueOf(Standard, s[i]), ValueOf(UrlSafe, s[i]);
      v.Some? && w.Some? ==> v == w
  {
  }

  /** No string is accepted by two of the three engines with different
      results. */
  lemma EnginesAgree(s: string)
    ensures Decode(UrlSafe, s).Some? && DecodePadded(Standard, s).Some? ==>
              Decode(UrlSafe, s) == DecodePadded(Standard, s)
    ensures Decode(UrlSafe, s).Some? && DecodePadded(UrlSafe, s).Some? ==>
              Decode(UrlSafe, s) == DecodePadded(UrlSafe, s)
    ensures DecodePadded(Standard, s).Some? && DecodePadded(UrlSafe, s).Some? ==>
              DecodePadded(Standard, s) == DecodePadded(UrlSafe, s)
  {
    if Decode(UrlSafe, s).Some? {
      DecodedIsEncoding(UrlSafe, s);
      EncodingLength(UrlSafe, Decode(UrlSafe, s).value);
      NothingToUnpad(s);
      if DecodePadded(Standard, s).Some? {
        AlphabetsAgree(s);
      }
    }
    if DecodePadded(Standard, s).Some? && DecodePadded(UrlSafe, s).Some? {
      AlphabetsAgree(Unpad(s));
    }
  }

  /** The fallback decoder accepts exactly the three encodings of its result. */
  lemma DecodeFlexibleIff(s: string, b: Bytes)
    ensures DecodeFlexible(s) == Some(b) <==>
              s == Encode(UrlSafe, b) || s == EncodePadded(Standard, b) || s == EncodePadded(UrlSafe, b)
  {
    hide Encode, Decode, DecodePadded, EncodePadded;
    EnginesAgree(s);
    DecodeEncode(UrlSafe, b);
    DecodePaddedIff(Standard, s, b);
    DecodePaddedIff(UrlSafe, s, b);
    if Decode(UrlSafe, s).Some? {
      DecodedIsEncoding(UrlSafe, s);
    }
  }
}
