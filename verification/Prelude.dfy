/** Types shared by the models: optional values, results that may also panic,
    bytes and big-endian numbers. */
module Prelude {

  datatype Option<+T> = None | Some(value: T)

  /** The result of a Rust function: a value, an error, or a panic
      (an index or slice out of bounds). */
  datatype Outcome<+T, +E> = Ok(value: T) | Err(error: E) | Panic

  type byte = b: int | 0 <= b < 256

  type Bytes = seq<byte>

  /** The bytes of an ASCII literal. */
  function Ascii(s: string): (b: Bytes)
    requires forall i :: 0 <= i < |s| ==> s[i] as int < 128
    ensures |b| == |s|
    ensures forall i :: 0 <= i < |s| ==> b[i] == s[i] as int
  {
    seq(|s|, i requires 0 <= i < |s| => s[i] as int)
  }

  lemma Associative<T>(a: seq<T>, b: seq<T>, c: seq<T>)
    ensures a + (b + c) == (a + b) + c
  {
  }

  lemma Associative4<T>(a: seq<T>, b: seq<T>, c: seq<T>, d: seq<T>)
    ensures a + (b + c + d) == a + b + c + d
    ensures a + (b + (c + d)) == a + b + c + d
  {
  }

  lemma EmptyUnit<T>(a: seq<T>)
    ensures [] + a == a && a + [] == a
  {
  }
}

/** Unsigned big-endian integers of a fixed number of bytes. */
module BigEndian {
  import opened Prelude

  function Pow256(w: nat): (p: nat)
    ensures p > 0
  {
    if w == 0 then 1 else 256 * Pow256(w - 1)
  }

  function Decode(b: Bytes): (n: nat)
    ensures n < Pow256(|b|)
  {
    if b == [] then 0 else Decode(b[..|b| - 1]) * 256 + b[|b| - 1]
  }

  function Encode(n: nat, w: nat): (b: Bytes)
    ensures |b| == w
  {
    if w == 0 then [] else Encode(n / 256, w - 1) + [n % 256]
  }

  lemma {:induction false} DecodeEncode(n: nat, w: nat)
    requires n < Pow256(w)
    ensures Decode(Encode(n, w)) == n
  {
    if w > 0 {
      DecodeEncode(n / 256, w - 1);
      assert Encode(n, w)[..w - 1] == Encode(n / 256, w - 1);
    }
  }

  lemma {:induction false} EncodeDecode(b: Bytes)
    ensures Encode(Decode(b), |b|) == b
  {
    if b != [] {
      var front := b[..|b| - 1];
      EncodeDecode(front);
      assert Decode(b) / 256 == Decode(front) && Decode(b) % 256 == b[|b| - 1];
      assert b == front + [b[|b| - 1]];
    }
  }

  lemma Powers()
    ensures Pow256(1) == 0x100
    ensures Pow256(2) == 0x1_0000
    ensures Pow256(4) == 0x1_0000_0000
    ensures Pow256(8) == 0x1_0000_0000_0000_0000
  {
    assert Pow256(2) == 256 * Pow256(1);
    assert Pow256(3) == 256 * Pow256(2);
    assert Pow256(4) == 256 * Pow256(3);
    assert Pow256(5) == 256 * Pow256(4);
    assert Pow256(6) == 256 * Pow256(5);
    assert Pow256(7) == 256 * Pow256(6);
  }
}

/** Well-formed UTF-8 byte sequences (RFC 3629, section 4), the strings that
    `String::from_utf8` accepts. */
module Utf8 {
  import opened Prelude

  predicate Tail(b: byte) {
    0x80 <= b <= 0xBF
  }

  /** The length of the well-formed character at the front of `b`, or 0. */
  function CharLength(b: Bytes): (n: nat)
    ensures n <= |b|
  {
    if b == [] then 0
    else if b[0] <= 0x7F then 1
    else if |b| >= 2 && 0xC2 <= b[0] <= 0xDF && Tail(b[1]) then 2
    else if && |b| >= 3 && 0xE0 <= b[0] <= 0xEF && Tail(b[1]) && Tail(b[2])
            && (b[0] == 0xE0 ==> 0xA0 <= b[1]) && (b[0] == 0xED ==> b[1] <= 0x9F) then 3
    else if && |b| >= 4 && 0xF0 <= b[0] <= 0xF4 && Tail(b[1]) && Tail(b[2]) && Tail(b[3])
            && (b[0] == 0xF0 ==> 0x90 <= b[1]) && (b[0] == 0xF4 ==> b[1] <= 0x8F) then 4
    else 0
  }

  predicate Valid(b: Bytes)
    decreases |b|
  {
    b == [] || (CharLength(b) > 0 && Valid(b[CharLength(b)..]))
  }

  lemma {:induction false} AsciiIsValid(b: Bytes)
    requires forall i :: 0 <= i < |b| ==> b[i] <= 0x7F
    ensures Valid(b)
  {
    if b != [] {
      AsciiIsValid(b[1..]);
    }
  }
}
