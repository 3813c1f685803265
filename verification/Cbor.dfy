/** The CBOR parser of gateway/src/crypto/webauthn.rs. */
module Cbor {
  import opened Prelude
  import BigEndian
  import Utf8

  datatype Value =
    | UnsignedInt(n: nat)
    | NegativeInt(i: int)
    | ByteString(bytes: Bytes)
    | TextString(text: Bytes)
    | Array(items: seq<Value>)
    | Map(entries: seq<Entry>)
    | Bool(b: bool)
    | Null

  datatype Entry = Entry(key: Value, value: Value)

  datatype Error =
    | UnexpectedEnd
    | UnsupportedInfo(ai: nat)
    | ByteStringOverflow
    | TextStringOverflow
    | InvalidUtf8
    | UnsupportedMajor(major: nat)

  /** What a vector can be reserved for. `Vec::with_capacity` panics beyond
      isize::MAX bytes; the layout of an item and of a pair is the compiler's. */
  type Limit = n: nat | 0x1_0000_0000 <= n < 0x8000_0000_0000_0000 witness 0x1_0000_0000

  const MAX_ITEMS: Limit
  const MAX_ENTRIES: Limit

  function MaxCount(major: nat): Limit {
    if major == 4 then MAX_ITEMS else MAX_ENTRIES
  }

  type Parsed<T> = Outcome<(T, Bytes), Error>

  datatype Head = Head(major: nat, arg: nat, width: nat)

  /** The argument bytes that follow an initial byte with this additional
      information (RFC 8949, section 3). */
  function ArgWidth(ai: nat): nat {
    match ai
    case 24 => 1
    case 25 => 2
    case 26 => 4
    case 27 => 8
    case _ => 0
  }

  /** The initial byte and its argument. A head that is cut short indexes out
      of bounds; the parser checks only for empty input. `width` counts the
      initial byte too. */
  function ReadHead(data: Bytes): (r: Outcome<Head, Error>)
    ensures r.Ok? ==> 0 < r.value.width <= |data|
  {
    if data == [] then Err(UnexpectedEnd)
    else
      var ai := data[0] % 32;
      if ai > 27 then Err(UnsupportedInfo(ai))
      else if |data| < 1 + ArgWidth(ai) then Panic
      else
        var arg := if ai <= 23 then ai else BigEndian.Decode(data[1..1 + ArgWidth(ai)]);
        Ok(Head(data[0] / 32, arg, 1 + ArgWidth(ai)))
  }

  /** `-1 - (value as i64)`: the cast wraps from 2^63 on. */
  function NegativeOf(value: nat): int {
    if value < 0x8000_0000_0000_0000 then -1 - value
    else 0x1_0000_0000_0000_0000 - 1 - value
  }

  function Simple(value: nat): Value {
    match value
    case 20 => Bool(false)
    case 21 => Bool(true)
    case 22 => Null
    case _ => UnsignedInt(value)
  }

  function Parse(data: Bytes): (r: Parsed<Value>)
    ensures r.Ok? ==> |r.value.1| < |data|
    decreases |data|, 0
  {
    var head := ReadHead(data);
    if head.Err? then Err(head.error)
    else if head.Panic? then Panic
    else
      var value := head.value.arg;
      var rest := data[head.value.width..];
      match head.value.major
      case 0 => Ok((UnsignedInt(value), rest))
      case 1 => Ok((NegativeInt(NegativeOf(value)), rest))
      case 2 =>
        if |rest| < value then Err(ByteStringOverflow)
        else Ok((ByteString(rest[..value]), rest[value..]))
      case 3 =>
        if |rest| < value then Err(TextStringOverflow)
        else if !Utf8.Valid(rest[..value]) then Err(InvalidUtf8)
        else Ok((TextString(rest[..value]), rest[value..]))
      case 4 =>
        if value > MAX_ITEMS then Panic
        else
          var items := ParseItems(value, rest);
          if items.Ok? then Ok((Array(items.value.0), items.value.1)) else Failed(items)
      case 5 =>
        if value > MAX_ENTRIES then Panic
        else
          var entries := ParseEntries(value, rest);
          if entries.Ok? then Ok((Map(entries.value.0), entries.value.1)) else Failed(entries)
      case 7 => Ok((Simple(value), rest))
      case _ => Err(UnsupportedMajor(head.value.major))
  }

  function Failed<T, U>(r: Parsed<T>): Parsed<U>
    requires !r.Ok?
  {
    if r.Err? then Err(r.error) else Panic
  }

  /** `count` items in a row. */
  function ParseItems(count: nat, data: Bytes): (r: Parsed<seq<Value>>)
    ensures r.Ok? ==> |r.value.1| <= |data|
    decreases |data|, 1 + count
  {
    if count == 0 then Ok(([], data))
    else
      var first := Parse(data);
      if !first.Ok? then Failed(first)
      else
        var others := ParseItems(count - 1, first.value.1);
        if !others.Ok? then others
        else Ok(([first.value.0] + others.value.0, others.value.1))
  }

  /** A key followed by its value. */
  function ParseEntry(data: Bytes): (r: Parsed<Entry>)
    ensures r.Ok? ==> |r.value.1| < |data|
    decreases |data|, 1
  {
    var key := Parse(data);
    if !key.Ok? then Failed(key)
    else
      var value := Parse(key.value.1);
      if !value.Ok? then Failed(value)
      else Ok((Entry(key.value.0, value.value.0), value.value.1))
  }

  /** `count` entries in a row. */
  function ParseEntries(count: nat, data: Bytes): (r: Parsed<seq<Entry>>)
    ensures r.Ok? ==> |r.value.1| <= |data|
    decreases |data|, 2 + count
  {
    if count == 0 then Ok(([], data))
    else
      var first := ParseEntry(data);
      if !first.Ok? then Failed(first)
      else
        var others := ParseEntries(count - 1, first.value.1);
        if !others.Ok? then others
        else Ok(([first.value.0] + others.value.0, others.value.1))
  }

  /** The parser in the source's form: it recurses on slices, and its two
      container cases fill a vector in a loop that advances `r`. */
  method CborParse(data: Bytes) returns (result: Parsed<Value>)
    ensures result == Parse(data)
    decreases |data|
  {
    hide ReadHead, NegativeOf, Simple, Utf8.Valid;
    var head := ReadHead(data);
    if head.Err? {
      return Err(head.error);
    }
    if head.Panic? {
      return Panic;
    }
    var Head(major, value, width) := head.value;
    var rest := data[width..];
    match major
    case 0 => result := Ok((UnsignedInt(value), rest));
    case 1 => result := Ok((NegativeInt(NegativeOf(value)), rest));
    case 2 =>
      if |rest| < value {
        return Err(ByteStringOverflow);
      }
      result := Ok((ByteString(rest[..value]), rest[value..]));
    case 3 =>
      if |rest| < value {
        return Err(TextStringOverflow);
      }
      if !Utf8.Valid(rest[..value]) {
        return Err(InvalidUtf8);
      }
      result := Ok((TextString(rest[..value]), rest[value..]));
    case 4 =>
      if value > MAX_ITEMS {
        return Panic;
      }
      var items, r := [], rest;
      AfterNothing(ParseItems(value, rest));
      for i := 0 to value
        invariant |r| <= |rest|
        invariant ParseItems(value, rest) == After(items, ParseItems(value - i, r))
      {
        var item := CborParse(r);
        if !item.Ok? {
          return Failed(item);
        }
        AfterOne(items, item.value.0, ParseItems(value - i - 1, item.value.1));
        items := items + [item.value.0];
        r := item.value.1;
      }
      assert items + [] == items;
      result := Ok((Array(items), r));
    case 5 =>
      if value > MAX_ENTRIES {
        return Panic;
      }
      var entries, r := [], rest;
      AfterNothing(ParseEntries(value, rest));
      for i := 0 to value
        invariant |r| <= |rest|
        invariant ParseEntries(value, rest) == After(entries, ParseEntries(value - i, r))
      {
        var key := CborParse(r);
        if !key.Ok? {
          return Failed(key);
        }
        var val := CborParse(key.value.1);
        if !val.Ok? {
          return Failed(val);
        }
        AfterOne(entries, Entry(key.value.0, val.value.0), ParseEntries(value - i - 1, val.value.1));
        entries := entries + [Entry(key.value.0, val.value.0)];
        r := val.value.1;
      }
      assert entries + [] == entries;
      result := Ok((Map(entries), r));
    case 7 => result := Ok((Simple(value), rest));
    case _ => result := Err(UnsupportedMajor(major));
  }

  /** What a container loop returns once `done` is read and the rest of the
      run gives `r`. */
  ghost function After<T>(done: seq<T>, r: Parsed<seq<T>>): Parsed<seq<T>> {
    if r.Ok? then Ok((done + r.value.0, r.value.1)) else r
  }

  lemma AfterNothing<T>(r: Parsed<seq<T>>)
    ensures After([], r) == r
  {
    if r.Ok? {
      assert [] + r.value.0 == r.value.0;
    }
  }

  lemma AfterOne<T>(done: seq<T>, x: T, r: Parsed<seq<T>>)
    ensures After(done, After([x], r)) == After(done + [x], r)
  {
    if r.Ok? {
      assert done + ([x] + r.value.0) == done + [x] + r.value.0;
    }
  }
}
