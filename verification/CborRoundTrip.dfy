/** The preferred serialization of RFC 8949 section 4.1 as an encoder for the
    supported values, its round trip through the parser, and the inputs on
    which the parser panics. */
module CborRoundTrip {
  import opened Prelude
  import opened Cbor
  import opened CborEncoding
  import BigEndian
  import Utf8

  const TWO_TO_THE_63 := 0x8000_0000_0000_0000
  const TWO_TO_THE_64 := 0x1_0000_0000_0000_0000

  /** Values that fit the parser's types without wrapping. */
  predicate Supported(v: Value)
    decreases v, 1
  {
    match v
    case UnsignedInt(n) => n < TWO_TO_THE_64
    case NegativeInt(i) => -TWO_TO_THE_63 <= i < 0
    case ByteString(b) => |b| < TWO_TO_THE_64
    case TextString(s) => |s| < TWO_TO_THE_64 && Utf8.Valid(s)
    case Array(items) => |items| <= MAX_ITEMS && SupportedItems(items)
    case Map(entries) => |entries| <= MAX_ENTRIES && SupportedEntries(entries)
    case _ => true
  }

  predicate SupportedItems(items: seq<Value>)
    decreases items, 0
  {
    items == [] || (Supported(items[0]) && SupportedItems(items[1..]))
  }

  predicate SupportedEntries(entries: seq<Entry>)
    decreases entries, 0
  {
    entries == [] || (SupportedEntry(entries[0]) && SupportedEntries(entries[1..]))
  }

  predicate SupportedEntry(e: Entry)
    decreases e, 2
  {
    Supported(e.key) && Supported(e.value)
  }

  /** The shortest head that holds the argument. */
  function EncodeHead(major: nat, arg: nat): (h: Bytes)
    requires major <= 7 && arg < TWO_TO_THE_64
  {
    if arg <= 23 then [major * 32 + arg]
    else if arg < 0x100 then [major * 32 + 24] + BigEndian.Encode(arg, 1)
    else if arg < 0x1_0000 then [major * 32 + 25] + BigEndian.Encode(arg, 2)
    else if arg < 0x1_0000_0000 then [major * 32 + 26] + BigEndian.Encode(arg, 4)
    else [major * 32 + 27] + BigEndian.Encode(arg, 8)
  }

  function EncodeValue(v: Value): Bytes
    requires Supported(v)
    decreases v, 1
  {
    match v
    case UnsignedInt(n) => EncodeHead(0, n)
    case NegativeInt(i) => EncodeHead(1, -1 - i)
    case ByteString(b) => EncodeHead(2, |b|) + b
    case TextString(s) => EncodeHead(3, |s|) + s
    case Array(items) => EncodeHead(4, |items|) + EncodeItems(items)
    case Map(entries) => EncodeHead(5, |entries|) + EncodeEntries(entries)
    case Bool(b) => EncodeHead(7, if b then 21 else 20)
    case Null => EncodeHead(7, 22)
  }

  function EncodeItems(items: seq<Value>): Bytes
    requires SupportedItems(items)
    decreases items, 0
  {
    if items == [] then [] else EncodeValue(items[0]) + EncodeItems(items[1..])
  }

  function EncodeEntries(entries: seq<Entry>): Bytes
    requires SupportedEntries(entries)
    decreases entries, 0
  {
    if entries == [] then [] else EncodeEntry(entries[0]) + EncodeEntries(entries[1..])
  }

  function EncodeEntry(e: Entry): Bytes
    requires SupportedEntry(e)
    decreases e, 2
  {
    EncodeValue(e.key) + EncodeValue(e.value)
  }

  lemma EncodeHeadIsHead(major: nat, arg: nat)
    requires major <= 7 && arg < TWO_TO_THE_64
    ensures IsHead(major, arg, EncodeHead(major, arg))
  {
    if arg <= 23 {
      assert (major * 32 + arg) / 32 == major && (major * 32 + arg) % 32 == arg;
    } else {
      hide IsHead;
      var w := if arg < 0x100 then 1 else if arg < 0x1_0000 then 2 else if arg < 0x1_0000_0000 then 4 else 8;
      var ai := if w == 1 then 24 else if w == 2 then 25 else if w == 4 then 26 else 27;
      BigEndian.Powers();
      BigEndian.DecodeEncode(arg, w);
      var h := EncodeHead(major, arg);
      hide *;
      assert ArgWidth(ai) == w by { HeadWidths(); }
      LongHead(major, ai, arg, h, w);
    }
  }

  lemma HeadWidths()
    ensures ArgWidth(24) == 1 && ArgWidth(25) == 2 && ArgWidth(26) == 4 && ArgWidth(27) == 8
  {
  }

  lemma LongHead(major: nat, ai: nat, arg: nat, h: Bytes, w: nat)
    requires major <= 7 && 24 <= ai <= 27 && ArgWidth(ai) == w > 0
    requires h == [major * 32 + ai] + BigEndian.Encode(arg, w)
    requires BigEndian.Decode(BigEndian.Encode(arg, w)) == arg
    ensures IsHead(major, arg, h)
  {
    hide BigEndian.Decode, BigEndian.Encode;
    assert h[1..] == BigEndian.Encode(arg, w);
  }

  /** The encoder's output encodes its input. */
  lemma {:induction false} EncoderEncodes(v: Value)
    requires Supported(v)
    ensures Encodes(v, EncodeValue(v))
    decreases v, 1
  {
    hide IsHead, EncodeHead, EncodeItems, EncodeEntries, EncodesItems, EncodesEntries;
    match v
    case UnsignedInt(n) => EncodeHeadIsHead(0, n);
    case NegativeInt(i) => EncodeHeadIsHead(1, -1 - i);
    case ByteString(b) => StringEncodes(2, b);
    case TextString(s) => StringEncodes(3, s);
    case Bool(b) => EncodeHeadIsHead(7, if b then 21 else 20);
    case Null => EncodeHeadIsHead(7, 22);
    case Array(items) =>
      EncodeHeadIsHead(4, |items|);
      ItemsEncode(items);
      JoinArray(items, EncodeHead(4, |items|), EncodeItems(items));
    case Map(entries) =>
      EncodeHeadIsHead(5, |entries|);
      EntriesEncode(entries);
      JoinMap(entries, EncodeHead(5, |entries|), EncodeEntries(entries));
  }

  lemma StringEncodes(major: nat, s: Bytes)
    requires major <= 7 && |s| < TWO_TO_THE_64
    ensures EncodesString(major, s, EncodeHead(major, |s|) + s)
  {
    EncodeHeadIsHead(major, |s|);
    var h := EncodeHead(major, |s|);
    hide IsHead, EncodeHead;
    assert (h + s)[..|h + s| - |s|] == h;
  }

  lemma {:induction false} ItemsEncode(items: seq<Value>)
    requires SupportedItems(items)
    ensures EncodesItems(items, EncodeItems(items))
    decreases items, 0
  {
    hide EncodeValue, Encodes;
    if items != [] {
      EncoderEncodes(items[0]);
      ItemsEncode(items[1..]);
      JoinItems(items[0], items[1..], EncodeValue(items[0]), EncodeItems(items[1..]));
      assert items == [items[0]] + items[1..];
    }
  }

  lemma {:induction false} EntriesEncode(entries: seq<Entry>)
    requires SupportedEntries(entries)
    ensures EncodesEntries(entries, EncodeEntries(entries))
    decreases entries, 0
  {
    hide EncodeValue, Encodes, EncodesEntry;
    if entries != [] {
      var e := entries[0];
      EntryEncodes(e);
      EntriesEncode(entries[1..]);
      JoinEntries(e, entries[1..], EncodeEntry(e), EncodeEntries(entries[1..]));
      assert entries == [e] + entries[1..];
    }
  }

  lemma {:induction false} EntryEncodes(e: Entry)
    requires SupportedEntry(e)
    ensures EncodesEntry(e, EncodeEntry(e))
    decreases e, 2
  {
    EncoderEncodes(e.key);
    EncoderEncodes(e.value);
    JoinEntry(e, EncodeValue(e.key), EncodeValue(e.value));
  }

  /** Parsing an encoded value followed by anything gives back the value and
      leaves what follows untouched. */
  lemma RoundTrip(v: Value, t: Bytes)
    requires Supported(v)
    ensures Parse(EncodeValue(v) + t) == Ok((v, t))
  {
    hide *;
    EncoderEncodes(v);
    ParseIsComplete(v, EncodeValue(v), t);
  }

  // ------------------------------------------------------------ panics

  /** The input ends inside the argument bytes of a head. */
  predicate CutHead(data: Bytes) {
    data != [] && data[0] % 32 <= 27 && |data| < 1 + ArgWidth(data[0] % 32)
  }

  /** Reading the input item by item runs into a cut head, or into a container
      that announces more than can be reserved: at once, or inside a container
      after some of its items. */
  ghost predicate Broken(data: Bytes)
    decreases |data|, 0
  {
    || CutHead(data)
    || exists major: nat, n: nat, k: nat | 4 <= major <= 5 && 0 < k <= |data| ::
      && IsHead(major, n, data[..k])
      && (n > MaxCount(major) || BrokenItems(if major == 4 then n else 2 * n, data[k..]))
  }

  /** The same, for `n` items in a row. */
  ghost predicate BrokenItems(n: nat, data: Bytes)
    decreases |data|, 1 + n
  {
    && n > 0
    && (Broken(data) || exists v, k: nat | 0 < k <= |data| :: Encodes(v, data[..k]) && BrokenItems(n - 1, data[k..]))
  }

  lemma ReadHeadPanics(data: Bytes)
    ensures ReadHead(data).Panic? <==> CutHead(data)
    ensures ReadHead(data).Ok? ==> !CutHead(data)
  {
  }

  lemma HeadIsUnique(data: Bytes, major: nat, n: nat, k: nat)
    requires major <= 7 && k <= |data| && IsHead(major, n, data[..k])
    ensures ReadHead(data) == Ok(Head(major, n, k))
  {
    HeadIsRead(major, n, data[..k], data[k..]);
    assert data == data[..k] + data[k..];
  }

  /** The parser panics exactly on broken inputs. */
  lemma {:induction false} ParsePanicsIffBroken(data: Bytes)
    ensures Parse(data).Panic? <==> Broken(data)
    decreases |data|, 0
  {
    hide ParseItems, ParseEntries, BrokenItems, IsHead, ReadHead, CutHead;
    ReadHeadPanics(data);
    if ReadHead(data).Ok? {
      ReadHeadIsHead(data);
      var Head(major, arg, width) := ReadHead(data).value;
      var body := data[width..];
      ItemsPanicIffBroken(arg, body);
      EntriesPanicIffBroken(arg, body);
      if Parse(data).Panic? {
        assert IsHead(major, arg, data[..width])
          && (arg > MaxCount(major) || BrokenItems(if major == 4 then arg else 2 * arg, body));
      }
    }
    if Broken(data) && !CutHead(data) {
      var major: nat, n: nat, k: nat :| 4 <= major <= 5 && 0 < k <= |data|
        && IsHead(major, n, data[..k])
        && (n > MaxCount(major) || BrokenItems(if major == 4 then n else 2 * n, data[k..]));
      HeadIsUnique(data, major, n, k);
    }
  }

  lemma {:induction false} ItemsPanicIffBroken(count: nat, data: Bytes)
    ensures ParseItems(count, data).Panic? <==> BrokenItems(count, data)
    decreases |data|, 1 + count
  {
    hide Parse, Broken, Encodes;
    if count > 0 {
      ParsePanicsIffBroken(data);
      FirstItem(count, data);
      if Parse(data).Ok? {
        ItemsPanicIffBroken(count - 1, Parse(data).value.1);
      }
    }
  }

  /** After a complete first item, a run is broken exactly when the rest is. */
  lemma FirstItem(count: nat, data: Bytes)
    requires count > 0
    requires Parse(data).Panic? <==> Broken(data)
    ensures Parse(data).Ok? ==> |Parse(data).value.1| < |data|
    ensures BrokenItems(count, data) <==>
              Parse(data).Panic? || (Parse(data).Ok? && BrokenItems(count - 1, Parse(data).value.1))
  {
    hide Parse, Broken, Encodes;
    if Parse(data).Ok? {
      ParseIsSound(data);
      var (v, rest) := Parse(data).value;
      var k := |data| - |rest|;
      assert data[..k] == Consumed(rest, data) && data[k..] == rest;
    }
    forall v, k: nat | 0 < k <= |data| && Encodes(v, data[..k])
      ensures Parse(data) == Ok((v, data[k..]))
    {
      ParseIsComplete(v, data[..k], data[k..]);
      assert data == data[..k] + data[k..];
    }
  }

  lemma {:induction false} EntriesPanicIffBroken(count: nat, data: Bytes)
    ensures ParseEntries(count, data).Panic? <==> BrokenItems(2 * count, data)
    decreases |data|, 2 + count
  {
    hide Parse, Broken, BrokenItems;
    if count > 0 {
      ParsePanicsIffBroken(data);
      FirstItem(2 * count, data);
      if Parse(data).Ok? {
        var middle := Parse(data).value.1;
        ParsePanicsIffBroken(middle);
        FirstItem(2 * count - 1, middle);
        if Parse(middle).Ok? {
          EntriesPanicIffBroken(count - 1, Parse(middle).value.1);
        }
      }
    } else {
      NoItems(data);
    }
  }

  lemma NoItems(data: Bytes)
    ensures !BrokenItems(0, data)
  {
  }

  /** A head that announces 2^63 items or more panics whatever follows. */
  lemma HugeCountPanics(major: nat, n: nat, h: Bytes, t: Bytes)
    requires 4 <= major <= 5 && IsHead(major, n, h) && n >= TWO_TO_THE_63
    ensures Parse(h + t) == Panic
  {
    hide IsHead;
    HeadIsRead(major, n, h, t);
  }
}
