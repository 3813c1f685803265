/** What the parser accepts, stated by the encoding rules of RFC 8949
    (sections 3, 3.1 and 3.3) instead of by parsing: the parser succeeds on a
    string exactly when the string starts with an encoding of the value. */
module CborEncoding {
  import opened Prelude
  import opened Cbor
  import BigEndian
  import Utf8

  /** `h` is an initial byte of this major type with this argument: held in
      the byte itself up to 23, or in the 1, 2, 4 or 8 bytes after it in
      network byte order, however small it is. */
  ghost predicate IsHead(major: nat, arg: nat, h: Bytes)
    requires major <= 7
  {
    && h != []
    && h[0] / 32 == major
    && h[0] % 32 <= 27
    && |h| == 1 + ArgWidth(h[0] % 32)
    && arg == if |h| == 1 then h[0] % 32 else BigEndian.Decode(h[1..])
  }

  /** The argument of major type 1 that the parser reads as `i`. Arguments
      that fit i64 give the negative integers of RFC 8949; the others wrap to
      the non-negative ones. */
  function NegativeArg(i: int): int {
    if i < 0 then -1 - i else 0xFFFF_FFFF_FFFF_FFFF - i
  }

  /** A head followed by the content bytes of a string. */
  ghost predicate EncodesString(major: nat, content: Bytes, p: Bytes)
    requires major <= 7
  {
    && |content| <= |p|
    && IsHead(major, |content|, p[..|p| - |content|])
    && p[|p| - |content|..] == content
  }

  /** `p` is an encoding of `v`. Heads need not be the shortest, and the two
      places where the parser is laxer than the RFC are spelled out: wrapped
      negatives, and major type 7 read as an integer. */
  ghost predicate Encodes(v: Value, p: Bytes)
    decreases v, 1
  {
    match v
    case UnsignedInt(n) => IsHead(0, n, p) || (n !in {20, 21, 22} && IsHead(7, n, p))
    case NegativeInt(i) =>
      -0x8000_0000_0000_0000 <= i < 0x8000_0000_0000_0000 && IsHead(1, NegativeArg(i), p)
    case ByteString(b) => EncodesString(2, b, p)
    case TextString(s) => Utf8.Valid(s) && EncodesString(3, s, p)
    case Array(items) =>
      && |items| <= MAX_ITEMS
      && exists k | 0 <= k <= |p| :: IsHead(4, |items|, p[..k]) && EncodesItems(items, p[k..])
    case Map(entries) =>
      && |entries| <= MAX_ENTRIES
      && exists k | 0 <= k <= |p| :: IsHead(5, |entries|, p[..k]) && EncodesEntries(entries, p[k..])
    case Bool(b) => IsHead(7, if b then 21 else 20, p)
    case Null => IsHead(7, 22, p)
  }

  ghost predicate EncodesItems(items: seq<Value>, p: Bytes)
    decreases items, 0
  {
    if items == [] then p == []
    else exists k | 0 <= k <= |p| :: Encodes(items[0], p[..k]) && EncodesItems(items[1..], p[k..])
  }

  ghost predicate EncodesEntries(entries: seq<Entry>, p: Bytes)
    decreases entries, 0
  {
    if entries == [] then p == []
    else exists k | 0 <= k <= |p| :: EncodesEntry(entries[0], p[..k]) && EncodesEntries(entries[1..], p[k..])
  }

  ghost predicate EncodesEntry(e: Entry, p: Bytes)
    decreases e, 2
  {
    exists k | 0 <= k <= |p| :: Encodes(e.key, p[..k]) && Encodes(e.value, p[k..])
  }

  /** Nodes plus string bytes. */
  ghost function Weight(v: Value): (n: nat)
    ensures n > 0
    decreases v, 1
  {
    match v
    case ByteString(b) => 1 + |b|
    case TextString(s) => 1 + |s|
    case Array(items) => 1 + ItemsWeight(items)
    case Map(entries) => 1 + EntriesWeight(entries)
    case _ => 1
  }

  ghost function ItemsWeight(items: seq<Value>): nat
    decreases items, 0
  {
    if items == [] then 0 else Weight(items[0]) + ItemsWeight(items[1..])
  }

  ghost function EntriesWeight(entries: seq<Entry>): nat
    decreases entries, 0
  {
    if entries == [] then 0
    else EntryWeight(entries[0]) + EntriesWeight(entries[1..])
  }

  ghost function EntryWeight(e: Entry): nat
    decreases e, 2
  {
    Weight(e.key) + Weight(e.value)
  }

  // Joining encodings.

  lemma JoinArray(items: seq<Value>, h: Bytes, body: Bytes)
    requires IsHead(4, |items|, h) && EncodesItems(items, body) && |items| <= MAX_ITEMS
    ensures Encodes(Array(items), h + body)
  {
    assert (h + body)[..|h|] == h && (h + body)[|h|..] == body;
  }

  lemma JoinMap(entries: seq<Entry>, h: Bytes, body: Bytes)
    requires IsHead(5, |entries|, h) && EncodesEntries(entries, body) && |entries| <= MAX_ENTRIES
    ensures Encodes(Map(entries), h + body)
  {
    assert (h + body)[..|h|] == h && (h + body)[|h|..] == body;
  }

  lemma JoinItems(first: Value, items: seq<Value>, p: Bytes, q: Bytes)
    requires Encodes(first, p) && EncodesItems(items, q)
    ensures EncodesItems([first] + items, p + q)
    ensures ItemsWeight([first] + items) == Weight(first) + ItemsWeight(items)
  {
    assert (p + q)[..|p|] == p && (p + q)[|p|..] == q;
    assert ([first] + items)[1..] == items;
  }

  lemma JoinEntry(e: Entry, p: Bytes, q: Bytes)
    requires Encodes(e.key, p) && Encodes(e.value, q)
    ensures EncodesEntry(e, p + q)
    ensures EntryWeight(e) == Weight(e.key) + Weight(e.value)
  {
    assert (p + q)[..|p|] == p && (p + q)[|p|..] == q;
  }

  lemma JoinEntries(e: Entry, entries: seq<Entry>, p: Bytes, q: Bytes)
    requires EncodesEntry(e, p) && EncodesEntries(entries, q)
    ensures EncodesEntries([e] + entries, p + q)
    ensures EntriesWeight([e] + entries) == EntryWeight(e) + EntriesWeight(entries)
  {
    assert (p + q)[..|p|] == p && (p + q)[|p|..] == q;
    assert ([e] + entries)[1..] == entries;
  }

  // ------------------------------------------------------------- heads

  lemma HeadIsRead(major: nat, arg: nat, h: Bytes, t: Bytes)
    requires major <= 7 && IsHead(major, arg, h)
    ensures ReadHead(h + t) == Ok(Head(major, arg, |h|))
  {
    assert (h + t)[1..|h|] == h[1..];
  }

  lemma ReadHeadIsHead(data: Bytes)
    requires ReadHead(data).Ok?
    ensures var h := ReadHead(data).value;
            h.major <= 7 && IsHead(h.major, h.arg, data[..h.width]) && h.arg < 0x1_0000_0000_0000_0000
  {
    hide BigEndian.Decode, BigEndian.Pow256;
    BigEndian.Powers();
    var h := ReadHead(data).value;
    assert data[..h.width][1..] == data[1..h.width];
  }

  // ------------------------------------------------------- soundness

  /** `rest` is what is left of `data` after the first bytes. */
  predicate Remains(rest: Bytes, data: Bytes) {
    |rest| <= |data| && rest == data[|data| - |rest|..]
  }

  function Consumed(rest: Bytes, data: Bytes): Bytes
    requires |rest| <= |data|
  {
    data[..|data| - |rest|]
  }

  lemma ConsumedTwice(data: Bytes, next: Bytes, rest: Bytes)
    requires Remains(next, data) && Remains(rest, next)
    ensures Remains(rest, data)
    ensures Consumed(rest, data) == Consumed(next, data) + Consumed(rest, next)
  {
  }

  /** Success means the consumed prefix encodes the value, whatever follows is
      handed back untouched, and the value is no bigger than its encoding. */
  lemma {:induction false} ParseIsSound(data: Bytes)
    requires Parse(data).Ok?
    ensures var (v, rest) := Parse(data).value;
            && Remains(rest, data) && |rest| < |data|
            && Encodes(v, Consumed(rest, data))
            && Weight(v) <= |Consumed(rest, data)|
    decreases |data|, 0
  {
    hide Encodes, EncodesItems, EncodesEntries, ParseItems, ParseEntries, ReadHead, IsHead;
    ReadHeadIsHead(data);
    var Head(major, arg, width) := ReadHead(data).value;
    var h, body := data[..width], data[width..];
    assert data == h + body;
    if major == 4 {
      ItemsAreSound(arg, body);
      var (items, rest) := ParseItems(arg, body).value;
      JoinArray(items, h, Consumed(rest, body));
      assert Consumed(rest, data) == h + Consumed(rest, body);
    } else if major == 5 {
      EntriesAreSound(arg, body);
      var (entries, rest) := ParseEntries(arg, body).value;
      JoinMap(entries, h, Consumed(rest, body));
      assert Consumed(rest, data) == h + Consumed(rest, body);
    } else {
      LeafIsSound(data);
    }
  }

  lemma StringIsSound(data: Bytes)
    requires ReadHead(data).Ok? && ReadHead(data).value.width + ReadHead(data).value.arg <= |data|
    ensures var h := ReadHead(data).value;
            var content, p := data[h.width..][..h.arg], data[..h.width + h.arg];
            && h.major <= 7 && EncodesString(h.major, content, p) && 1 + |content| <= |p|
            && p == Consumed(data[h.width..][h.arg..], data) && Remains(data[h.width..][h.arg..], data)
  {
    ReadHeadIsHead(data);
    hide IsHead, ReadHead;
    var h := ReadHead(data).value;
    var p := data[..h.width + h.arg];
    assert p[..h.width] == data[..h.width];
  }

  /** The cases without recursion. */
  lemma LeafIsSound(data: Bytes)
    requires Parse(data).Ok? && ReadHead(data).value.major !in {4, 5}
    ensures var (v, rest) := Parse(data).value;
            && Remains(rest, data) && |rest| < |data|
            && Encodes(v, Consumed(rest, data))
            && Weight(v) <= |Consumed(rest, data)|
  {
    ReadHeadIsHead(data);
    var Head(major, arg, width) := ReadHead(data).value;
    hide ReadHead, IsHead, ParseItems, ParseEntries, Utf8.Valid;
    if major == 2 || major == 3 {
      StringIsSound(data);
      hide EncodesString, Consumed, Remains;
    } else {
      assert Consumed(Parse(data).value.1, data) == data[..width];
      hide EncodesString;
    }
  }

  lemma {:induction false} ItemsAreSound(count: nat, data: Bytes)
    requires ParseItems(count, data).Ok?
    ensures var (items, rest) := ParseItems(count, data).value;
            && |items| == count && Remains(rest, data)
            && EncodesItems(items, Consumed(rest, data))
            && ItemsWeight(items) <= |Consumed(rest, data)|
    decreases |data|, 1 + count
  {
    if count > 0 {
      hide Parse, Encodes, EncodesItems, Weight, ItemsWeight, Consumed, Remains;
      ParseIsSound(data);
      var (first, next) := Parse(data).value;
      ItemsAreSound(count - 1, next);
      var (items, rest) := ParseItems(count - 1, next).value;
      ConsumedTwice(data, next, rest);
      JoinItems(first, items, Consumed(next, data), Consumed(rest, next));
    }
  }

  lemma {:induction false} EntriesAreSound(count: nat, data: Bytes)
    requires ParseEntries(count, data).Ok?
    ensures var (entries, rest) := ParseEntries(count, data).value;
            && |entries| == count && Remains(rest, data)
            && EncodesEntries(entries, Consumed(rest, data))
            && EntriesWeight(entries) <= |Consumed(rest, data)|
    decreases |data|, 2 + count
  {
    if count > 0 {
      hide Parse, ParseEntry, Encodes, EncodesEntry, EncodesEntries, Weight, EntryWeight, EntriesWeight, Consumed,
        Remains;
      hide ParseItems, EncodesItems, ItemsWeight, ReadHead, IsHead;
      EntryIsSound(data);
      var (e, next) := ParseEntry(data).value;
      EntriesAreSound(count - 1, next);
      var (entries, rest) := ParseEntries(count - 1, next).value;
      assert ParseEntries(count, data) == Ok(([e] + entries, rest));
      hide ParseEntries;
      ConsumedTwice(data, next, rest);
      JoinEntries(e, entries, Consumed(next, data), Consumed(rest, next));
    }
  }

  lemma {:induction false} EntryIsSound(data: Bytes)
    requires ParseEntry(data).Ok?
    ensures var (e, rest) := ParseEntry(data).value;
            && Remains(rest, data) && |rest| < |data|
            && EncodesEntry(e, Consumed(rest, data))
            && EntryWeight(e) <= |Consumed(rest, data)|
    decreases |data|, 1
  {
    hide Parse, Encodes, EncodesEntry, Weight, EntryWeight, Consumed, Remains;
    ParseIsSound(data);
    var (key, middle) := Parse(data).value;
    ParseIsSound(middle);
    var (val, rest) := Parse(middle).value;
    ConsumedTwice(data, middle, rest);
    JoinEntry(Entry(key, val), Consumed(middle, data), Consumed(rest, middle));
  }

  // ---------------------------------------------------- completeness

  /** Every encoding of a value is read back as that value, and the bytes
      after it are left alone. */
  lemma {:induction false} ParseIsComplete(v: Value, p: Bytes, t: Bytes)
    requires Encodes(v, p)
    ensures Parse(p + t) == Ok((v, t))
    decreases v, 1
  {
    hide Parse, ParseItems, ParseEntries, EncodesItems, EncodesEntries, IsHead;
    match v
    case Array(items) =>
      var k :| 0 <= k <= |p| && IsHead(4, |items|, p[..k]) && EncodesItems(items, p[k..]);
      ItemsAreComplete(items, p[k..], t);
      ArrayIsRead(items, p[..k], p[k..] + t, t);
      assert p + t == p[..k] + (p[k..] + t);
    case Map(entries) =>
      var k :| 0 <= k <= |p| && IsHead(5, |entries|, p[..k]) && EncodesEntries(entries, p[k..]);
      EntriesAreComplete(entries, p[k..], t);
      MapIsRead(entries, p[..k], p[k..] + t, t);
      assert p + t == p[..k] + (p[k..] + t);
    case _ => LeafIsComplete(v, p, t);
  }

  lemma ArrayIsRead(items: seq<Value>, h: Bytes, body: Bytes, t: Bytes)
    requires IsHead(4, |items|, h) && |items| <= MAX_ITEMS && ParseItems(|items|, body) == Ok((items, t))
    ensures Parse(h + body) == Ok((Array(items), t))
  {
    HeadIsRead(4, |items|, h, body);
    assert (h + body)[|h|..] == body;
  }

  lemma MapIsRead(entries: seq<Entry>, h: Bytes, body: Bytes, t: Bytes)
    requires IsHead(5, |entries|, h) && |entries| <= MAX_ENTRIES
    requires ParseEntries(|entries|, body) == Ok((entries, t))
    ensures Parse(h + body) == Ok((Map(entries), t))
  {
    HeadIsRead(5, |entries|, h, body);
    assert (h + body)[|h|..] == body;
  }

  lemma LeafIsComplete(v: Value, p: Bytes, t: Bytes)
    requires Encodes(v, p) && !v.Array? && !v.Map?
    ensures Parse(p + t) == Ok((v, t))
  {
    match v
    case UnsignedInt(n) => HeadAlone(if IsHead(0, n, p) then 0 else 7, n, p, t);
    case NegativeInt(i) => HeadAlone(1, NegativeArg(i), p, t);
    case ByteString(b) => StringIsRead(2, b, p, t);
    case TextString(s) => StringIsRead(3, s, p, t);
    case Bool(b) => HeadAlone(7, if b then 21 else 20, p, t);
    case Null => HeadAlone(7, 22, p, t);
  }

  lemma HeadAlone(major: nat, arg: nat, p: Bytes, t: Bytes)
    requires major <= 7 && IsHead(major, arg, p)
    ensures ReadHead(p + t) == Ok(Head(major, arg, |p|)) && (p + t)[|p|..] == t
  {
    HeadIsRead(major, arg, p, t);
  }

  lemma StringIsRead(major: nat, s: Bytes, p: Bytes, t: Bytes)
    requires major <= 7 && EncodesString(major, s, p)
    ensures ReadHead(p + t) == Ok(Head(major, |s|, |p| - |s|))
    ensures (p + t)[|p| - |s|..] == s + t
  {
    var h := p[..|p| - |s|];
    assert p + t == h + (s + t);
    HeadIsRead(major, |s|, h, s + t);
  }

  lemma {:induction false} ItemsAreComplete(items: seq<Value>, p: Bytes, t: Bytes)
    requires EncodesItems(items, p)
    ensures ParseItems(|items|, p + t) == Ok((items, t))
    decreases items, 0
  {
    hide Parse, Encodes;
    if items == [] {
      assert p + t == t;
    } else {
      var k :| 0 <= k <= |p| && Encodes(items[0], p[..k]) && EncodesItems(items[1..], p[k..]);
      ParseIsComplete(items[0], p[..k], p[k..] + t);
      ItemsAreComplete(items[1..], p[k..], t);
      assert p + t == p[..k] + (p[k..] + t);
      assert items == [items[0]] + items[1..];
    }
  }

  lemma {:induction false} EntriesAreComplete(entries: seq<Entry>, p: Bytes, t: Bytes)
    requires EncodesEntries(entries, p)
    ensures ParseEntries(|entries|, p + t) == Ok((entries, t))
    decreases entries, 0
  {
    hide ParseEntry, EncodesEntry;
    if entries == [] {
      assert p + t == t;
    } else {
      var k :| 0 <= k <= |p| && EncodesEntry(entries[0], p[..k]) && EncodesEntries(entries[1..], p[k..]);
      var after := p[k..] + t;
      EntryIsComplete(entries[0], p[..k], after);
      EntriesAreComplete(entries[1..], p[k..], t);
      assert p + t == p[..k] + after;
      assert entries == [entries[0]] + entries[1..];
    }
  }

  lemma {:induction false} EntryIsComplete(e: Entry, p: Bytes, t: Bytes)
    requires EncodesEntry(e, p)
    ensures ParseEntry(p + t) == Ok((e, t))
    decreases e, 2
  {
    hide Parse, Encodes;
    var k :| 0 <= k <= |p| && Encodes(e.key, p[..k]) && Encodes(e.value, p[k..]);
    ParseIsComplete(e.key, p[..k], p[k..] + t);
    ParseIsComplete(e.value, p[k..], t);
    assert p + t == p[..k] + (p[k..] + t);
  }

  // ----------------------------------------------------- consequences

  /** The parser decides the encoding relation: it returns (v, t) exactly on
      the strings made of an encoding of v followed by t. */
  lemma ParseIffEncodes(data: Bytes, v: Value, t: Bytes)
    ensures Parse(data) == Ok((v, t)) <==> exists p :: data == p + t && Encodes(v, p)
  {
    if Parse(data) == Ok((v, t)) {
      ParseIsSound(data);
      assert data == Consumed(t, data) + t;
    }
    forall p | data == p + t && Encodes(v, p)
      ensures Parse(data) == Ok((v, t))
    {
      ParseIsComplete(v, p, t);
    }
  }

  /** Bytes added after a successful parse change only the remainder. */
  lemma ParseIsLocal(data: Bytes, t: Bytes)
    requires Parse(data).Ok?
    ensures Parse(data + t) == Ok((Parse(data).value.0, Parse(data).value.1 + t))
  {
    hide Parse, Encodes;
    ParseIsSound(data);
    var (v, rest) := Parse(data).value;
    ParseIsComplete(v, Consumed(rest, data), rest + t);
    assert data + t == Consumed(rest, data) + (rest + t);
  }

  /** No encoding is a prefix of another, and no string encodes two values. */
  lemma EncodingsArePrefixFree(v: Value, p: Bytes, w: Value, q: Bytes)
    requires Encodes(v, p) && Encodes(w, q) && p <= q
    ensures p == q && v == w
  {
    var t := q[|p|..];
    assert q == p + t && q == q + [];
    ParseIsComplete(v, p, t);
    ParseIsComplete(w, q, []);
  }
}
