/** The three map readers look fields up by key: with distinct keys the order
    of the entries does not matter. */
module AttestationOrder {
  import opened Prelude
  import opened Cbor
  import opened Attestation

  /** How a reader recognises a key. */
  datatype Name = TextName(text: Bytes) | IntName(number: int)

  predicate Named(key: Value, name: Name) {
    match name
    case TextName(t) => key == TextString(t)
    case IntName(n) => AsInt(key) == Some(n)
  }

  /** The value of the last entry with this name. */
  function LastValue(entries: seq<Entry>, name: Name): Option<Value> {
    if entries == [] then None
    else
      var later := LastValue(entries[1..], name);
      if later.None? && Named(entries[0].key, name) then Some(entries[0].value) else later
  }

  ghost predicate Once(entries: seq<Entry>, name: Name) {
    forall i, j | 0 <= i < j < |entries| :: !(Named(entries[i].key, name) && Named(entries[j].key, name))
  }

  lemma {:induction false} LastValueIsInEntries(entries: seq<Entry>, name: Name)
    ensures match LastValue(entries, name)
            case Some(v) => exists e :: e in entries && Named(e.key, name) && e.value == v
            case None => forall e | e in entries :: !Named(e.key, name)
  {
    if entries != [] {
      LastValueIsInEntries(entries[1..], name);
    }
  }

  /** A name that occurs once is looked up wherever its entry stands. */
  lemma OnlyEntryIsFound(entries: seq<Entry>, name: Name, e: Entry)
    requires e in entries && Named(e.key, name) && Once(entries, name)
    ensures LastValue(entries, name) == Some(e.value)
  {
    LastValueIsInEntries(entries, name);
  }

  lemma LookupIgnoresOrder(a: seq<Entry>, b: seq<Entry>, name: Name)
    requires multiset(a) == multiset(b) && Once(a, name)
    ensures LastValue(a, name) == LastValue(b, name)
  {
    SameMembers(a, b);
    LastValueIsInEntries(a, name);
    LastValueIsInEntries(b, name);
    if LastValue(b, name).Some? {
      var e :| e in b && Named(e.key, name) && e.value == LastValue(b, name).value;
      OnlyEntryIsFound(a, name, e);
    }
  }

  lemma SameMembers(a: seq<Entry>, b: seq<Entry>)
    requires multiset(a) == multiset(b)
    ensures forall e :: e in a <==> e in b
  {
    forall e
      ensures e in a <==> e in b
    {
      assert e in a <==> e in multiset(a);
      assert e in b <==> e in multiset(b);
    }
  }

  // ------------------------------------- the readers as lookups by name

  function TextOr(v: Option<Value>, otherwise: Option<Bytes>): Option<Bytes> {
    if v.Some? && v.value.TextString? then Some(v.value.text) else otherwise
  }

  function BytesOr(v: Option<Value>, otherwise: Option<Bytes>): Option<Bytes> {
    if v.Some? && v.value.ByteString? then Some(v.value.bytes) else otherwise
  }

  function IntOr(v: Option<Value>, otherwise: Option<int>): Option<int> {
    if v.Some? && AsInt(v.value).Some? then AsInt(v.value) else otherwise
  }

  function LookUpObject(o: Object, entries: seq<Entry>): Object {
    var stmt := LastValue(entries, TextName(ATT_STMT));
    Object(TextOr(LastValue(entries, TextName(FMT)), o.fmt),
           BytesOr(LastValue(entries, TextName(AUTH_DATA)), o.authData),
           if stmt.Some? then stmt.value else o.attStmt)
  }

  lemma {:induction false} ObjectIsLookedUp(o: Object, entries: seq<Entry>)
    ensures ObjectEntries(o, entries).Ok? <==> forall e | e in entries :: ObjectEntry(NO_OBJECT, e).Ok?
    ensures ObjectEntries(o, entries).Ok? ==> ObjectEntries(o, entries).value == LookUpObject(o, entries)
    ensures !ObjectEntries(o, entries).Panic?
    decreases |entries|
  {
    if entries != [] {
      assert FMT != AUTH_DATA && FMT != ATT_STMT && AUTH_DATA != ATT_STMT;
      var first := ObjectEntry(o, entries[0]);
      assert first.Ok? <==> ObjectEntry(NO_OBJECT, entries[0]).Ok?;
      assert entries == [entries[0]] + entries[1..];
      if first.Ok? {
        ObjectIsLookedUp(first.value, entries[1..]);
        LastValueIsInEntries(entries[1..], TextName(FMT));
        LastValueIsInEntries(entries[1..], TextName(AUTH_DATA));
      }
    }
  }

  function LookUpKey(k: Key, entries: seq<Entry>): Key {
    Key(IntOr(LastValue(entries, IntName(1)), k.kty), IntOr(LastValue(entries, IntName(-1)), k.crv),
        BytesOr(LastValue(entries, IntName(-2)), k.x), BytesOr(LastValue(entries, IntName(-3)), k.y))
  }

  lemma {:induction false} KeyIsLookedUp(k: Key, entries: seq<Entry>)
    ensures KeyEntries(k, entries).Ok? <==> forall e | e in entries :: KeyEntry(NO_KEY, e).Ok?
    ensures KeyEntries(k, entries).Ok? ==> KeyEntries(k, entries).value == LookUpKey(k, entries)
    ensures !KeyEntries(k, entries).Panic?
    decreases |entries|
  {
    if entries != [] {
      hide AsInt;
      var first := KeyEntry(k, entries[0]);
      assert first.Ok? <==> KeyEntry(NO_KEY, entries[0]).Ok?;
      assert entries == [entries[0]] + entries[1..];
      if first.Ok? {
        KeyIsLookedUp(first.value, entries[1..]);
        LastValueIsInEntries(entries[1..], IntName(1));
        LastValueIsInEntries(entries[1..], IntName(-1));
        LastValueIsInEntries(entries[1..], IntName(-2));
        LastValueIsInEntries(entries[1..], IntName(-3));
      }
    }
  }

  function LookUpStatement(s: Statement, entries: seq<Entry>): Statement {
    Statement(IntOr(LastValue(entries, TextName(ALG)), s.alg),
              BytesOr(LastValue(entries, TextName(SIG)), s.sig),
              s.hasX5c || LastValue(entries, TextName(X5C)).Some?,
              s.hasEcdaa || LastValue(entries, TextName(ECDAA)).Some?)
  }

  lemma StatementNamesDiffer()
    ensures ALG != SIG && ALG != X5C && ALG != ECDAA && SIG != X5C && SIG != ECDAA && X5C != ECDAA
  {
    assert ALG[0] != SIG[0] && ALG[0] != X5C[0] && ALG[0] != ECDAA[0];
    assert SIG[0] != X5C[0] && SIG[0] != ECDAA[0] && X5C[0] != ECDAA[0];
  }

  lemma StatementStarts(s: Statement, e: Entry)
    ensures StatementEntry(s, e).Ok? <==> StatementEntry(NO_STATEMENT, e).Ok?
    ensures !StatementEntry(s, e).Panic?
  {
  }

  /** Reading the first entry and looking the others up is looking all of them
      up. */
  lemma StatementStep(s: Statement, entries: seq<Entry>)
    requires entries != [] && forall e | e in entries :: StatementEntry(NO_STATEMENT, e).Ok?
    requires StatementEntry(s, entries[0]).Ok?
    ensures LookUpStatement(StatementEntry(s, entries[0]).value, entries[1..]) == LookUpStatement(s, entries)
  {
    var rest := entries[1..];
    assert forall e | e in rest :: e in entries;
    LastValueIsInEntries(rest, TextName(ALG));
    LastValueIsInEntries(rest, TextName(SIG));
    hide Ascii, AsInt;
    StatementNamesDiffer();
  }

  lemma {:induction false} StatementIsLookedUp(s: Statement, entries: seq<Entry>)
    ensures StatementEntries(s, entries).Ok? <==> forall e | e in entries :: StatementEntry(NO_STATEMENT, e).Ok?
    ensures StatementEntries(s, entries).Ok? ==> StatementEntries(s, entries).value == LookUpStatement(s, entries)
    ensures !StatementEntries(s, entries).Panic?
    decreases |entries|
  {
    if entries != [] {
      var first := StatementEntry(s, entries[0]);
      assert entries == [entries[0]] + entries[1..];
      StatementStarts(s, entries[0]);
      if first.Ok? {
        hide StatementEntry, LookUpStatement;
        StatementIsLookedUp(first.value, entries[1..]);
        if StatementEntries(s, entries).Ok? {
          StatementStep(s, entries);
        }
      }
    }
  }

  // ---------------------------------------------------- permutations

  /** The same result, or two rejections that may name different errors. */
  predicate Agree<T(==)>(a: Checked<T>, b: Checked<T>) {
    a == b || (a.Err? && b.Err?)
  }

  /** No two keys are read as the same name. */
  ghost predicate DistinctKeys(entries: seq<Entry>) {
    forall name :: Once(entries, name)
  }

  lemma ObjectIgnoresOrder(a: seq<Entry>, b: seq<Entry>)
    requires multiset(a) == multiset(b) && DistinctKeys(a)
    ensures Agree(ObjectOf(Map(a)), ObjectOf(Map(b)))
  {
    SameMembers(a, b);
    ObjectIsLookedUp(NO_OBJECT, a);
    ObjectIsLookedUp(NO_OBJECT, b);
    LookupIgnoresOrder(a, b, TextName(FMT));
    LookupIgnoresOrder(a, b, TextName(AUTH_DATA));
    LookupIgnoresOrder(a, b, TextName(ATT_STMT));
  }

  lemma KeyIgnoresOrder(a: seq<Entry>, b: seq<Entry>)
    requires multiset(a) == multiset(b) && DistinctKeys(a)
    ensures Agree(Sec1Of(Map(a)), Sec1Of(Map(b)))
  {
    SameMembers(a, b);
    KeyIsLookedUp(NO_KEY, a);
    KeyIsLookedUp(NO_KEY, b);
    LookupIgnoresOrder(a, b, IntName(1));
    LookupIgnoresOrder(a, b, IntName(-1));
    LookupIgnoresOrder(a, b, IntName(-2));
    LookupIgnoresOrder(a, b, IntName(-3));
  }

  lemma PackedIgnoresOrder(p: Primitives, a: seq<Entry>, b: seq<Entry>, authData: Bytes, clientData: Bytes, sec1: Bytes)
    requires multiset(a) == multiset(b) && DistinctKeys(a)
    ensures Agree(PackedVerdict(p, Map(a), authData, clientData, sec1),
                  PackedVerdict(p, Map(b), authData, clientData, sec1))
  {
    SameMembers(a, b);
    StatementIsLookedUp(NO_STATEMENT, a);
    StatementIsLookedUp(NO_STATEMENT, b);
    LookupIgnoresOrder(a, b, TextName(ALG));
    LookupIgnoresOrder(a, b, TextName(SIG));
    LookupIgnoresOrder(a, b, TextName(X5C));
    LookupIgnoresOrder(a, b, TextName(ECDAA));
  }
}
