/** Times as the table keeps them: texts, compared as texts
    (gateway/src/routes/messages.rs). */
module Timestamps {
  import opened Prelude

  /** SQLite's BINARY order of texts. */
  predicate Less(a: string, b: string) {
    b != [] && (a == [] || a[0] < b[0] || (a[0] == b[0] && Less(a[1..], b[1..])))
  }

  predicate AtMost(a: string, b: string) {
    !Less(b, a)
  }

  lemma {:induction false} Total(a: string, b: string)
    ensures Less(a, b) || Less(b, a) <==> a != b
    ensures !(Less(a, b) && Less(b, a))
  {
    if a != [] && b != [] {
      Total(a[1..], b[1..]);
      assert a == [a[0]] + a[1..] && b == [b[0]] + b[1..];
    }
  }

  lemma {:induction false} Transitive(a: string, b: string, c: string)
    requires Less(a, b) && Less(b, c)
    ensures Less(a, c)
  {
    if a != [] && a[0] == b[0] == c[0] {
      Transitive(a[1..], b[1..], c[1..]);
    }
  }

  /** The order of three texts. */
  lemma Chain(a: string, b: string, c: string)
    requires AtMost(a, b) && AtMost(b, c)
    ensures AtMost(a, c)
    ensures Less(a, b) || Less(b, c) ==> Less(a, c)
  {
    Total(a, b);
    Total(b, c);
    Total(a, c);
    if Less(c, a) {
      if Less(a, b) {
        Transitive(c, a, b);
      }
    } else if Less(a, b) && Less(b, c) {
      Transitive(a, b, c);
    }
  }

  lemma {:induction false} LessByParts(a: string, b: string, x: string, y: string)
    requires |a| == |b|
    ensures Less(a + x, b + y) <==> Less(a, b) || (a == b && Less(x, y))
  {
    if a == [] {
      EmptyUnit(x);
      EmptyUnit(y);
    } else {
      LessByParts(a[1..], b[1..], x, y);
      assert (a + x)[1..] == a[1..] + x && (b + y)[1..] == b[1..] + y;
      assert a == [a[0]] + a[1..] && b == [b[0]] + b[1..];
    }
  }

  // --------------------------------------------------- the forms of a time

  datatype DateTime = DateTime(year: nat, month: nat, day: nat, hour: nat, minute: nat, second: nat)

  predicate Valid(t: DateTime) {
    t.year < 10000 && t.month <= 12 && t.day <= 31 && t.hour < 24 && t.minute < 60 && t.second <= 60
  }

  predicate EarlierDay(a: DateTime, b: DateTime) {
    a.year < b.year
    || (a.year == b.year && (a.month < b.month || (a.month == b.month && a.day < b.day)))
  }

  predicate SameDay(a: DateTime, b: DateTime) {
    a.year == b.year && a.month == b.month && a.day == b.day
  }

  predicate EarlierInDay(a: DateTime, b: DateTime) {
    a.hour < b.hour
    || (a.hour == b.hour && (a.minute < b.minute || (a.minute == b.minute && a.second < b.second)))
  }

  predicate Earlier(a: DateTime, b: DateTime) {
    EarlierDay(a, b) || (SameDay(a, b) && EarlierInDay(a, b))
  }

  function Digit(d: nat): char
    requires d < 10
  {
    '0' + d as char
  }

  function Two(n: nat): (s: string)
    requires n < 100
    ensures |s| == 2
  {
    [Digit(n / 10), Digit(n % 10)]
  }

  /** Numbers of two digits, with a separator between them. */
  function Three(a: nat, b: nat, c: nat, separator: string): (s: string)
    requires a < 100 && b < 100 && c < 100
    ensures |s| == 6 + 2 * |separator|
  {
    Two(a) + (separator + (Two(b) + (separator + Two(c))))
  }

  function Date(t: DateTime): (s: string)
    requires Valid(t)
    ensures |s| == 10
  {
    Two(t.year / 100) + Three(t.year % 100, t.month, t.day, "-")
  }

  function Time(t: DateTime): (s: string)
    requires Valid(t)
    ensures |s| == 8
  {
    Three(t.hour, t.minute, t.second, ":")
  }

  /** `datetime('now')`, as rows store it. */
  function Stored(t: DateTime): string
    requires Valid(t)
  {
    Date(t) + (" " + Time(t))
  }

  /** The ISO 8601 form, as callers write it. */
  function Iso(t: DateTime): string
    requires Valid(t)
  {
    Date(t) + ("T" + (Time(t) + "Z"))
  }

  lemma TwoOrder(m: nat, n: nat)
    requires m < 100 && n < 100
    ensures Less(Two(m), Two(n)) <==> m < n
    ensures Two(m) == Two(n) <==> m == n
  {
    var a, b := Two(m), Two(n);
    assert Less(a[1..], b[1..]) <==> a[1] < b[1];
    assert a[0] < b[0] <==> m / 10 < n / 10;
    assert a[1] < b[1] <==> m % 10 < n % 10;
    assert m == m / 10 * 10 + m % 10 && n == n / 10 * 10 + n % 10;
  }

  lemma ThreeOrder(a: nat, b: nat, c: nat, a': nat, b': nat, c': nat, separator: string)
    requires a < 100 && b < 100 && c < 100 && a' < 100 && b' < 100 && c' < 100
    ensures Less(Three(a, b, c, separator), Three(a', b', c', separator))
       <==> a < a' || (a == a' && (b < b' || (b == b' && c < c')))
    ensures Three(a, b, c, separator) == Three(a', b', c', separator) <==> a == a' && b == b' && c == c'
  {
    TwoOrder(a, a');
    TwoOrder(b, b');
    TwoOrder(c, c');
    Total(separator, separator);
    hide Less, Two;
    var s, s' := separator + Two(c), separator + Two(c');
    LessByParts(separator, separator, Two(c), Two(c'));
    LessByParts(Two(b), Two(b'), s, s');
    LessByParts(separator, separator, Two(b) + s, Two(b') + s');
    LessByParts(Two(a), Two(a'), separator + (Two(b) + s), separator + (Two(b') + s'));
    SamePrefix(separator, separator, Two(c), Two(c'));
    SamePrefix(Two(b), Two(b'), s, s');
    SamePrefix(separator, separator, Two(b) + s, Two(b') + s');
    SamePrefix(Two(a), Two(a'), separator + (Two(b) + s), separator + (Two(b') + s'));
  }

  lemma SamePrefix(a: string, b: string, x: string, y: string)
    requires |a| == |b|
    ensures a + x == b + y <==> a == b && x == y
  {
    assert (a + x)[..|a|] == a && (a + x)[|a|..] == x;
    assert (b + y)[..|b|] == b && (b + y)[|b|..] == y;
  }

  lemma DateOrder(a: DateTime, b: DateTime)
    requires Valid(a) && Valid(b)
    ensures Less(Date(a), Date(b)) <==> EarlierDay(a, b)
    ensures Date(a) == Date(b) <==> SameDay(a, b)
  {
    TwoOrder(a.year / 100, b.year / 100);
    ThreeOrder(a.year % 100, a.month, a.day, b.year % 100, b.month, b.day, "-");
    hide Less, Two, Three;
    var x, y := Three(a.year % 100, a.month, a.day, "-"), Three(b.year % 100, b.month, b.day, "-");
    LessByParts(Two(a.year / 100), Two(b.year / 100), x, y);
    SamePrefix(Two(a.year / 100), Two(b.year / 100), x, y);
  }

  /** Stored times are ordered as times. */
  lemma StoredOrder(a: DateTime, b: DateTime)
    requires Valid(a) && Valid(b)
    ensures Less(Stored(a), Stored(b)) <==> Earlier(a, b)
  {
    DateOrder(a, b);
    ThreeOrder(a.hour, a.minute, a.second, b.hour, b.minute, b.second, ":");
    Total(" ", " ");
    hide Less, Three, Date;
    LessByParts(" ", " ", Time(a), Time(b));
    LessByParts(Date(a), Date(b), " " + Time(a), " " + Time(b));
  }

  /** Against an ISO form they are ordered by the day alone: a blank comes before
      the "T". */
  lemma IsoOrder(a: DateTime, b: DateTime)
    requires Valid(a) && Valid(b)
    ensures Less(Iso(a), Stored(b)) <==> EarlierDay(a, b)
  {
    DateOrder(a, b);
    assert !Less("T", " ") && "T" != " ";
    hide Less, Time, Date;
    LessByParts("T", " ", Time(a) + "Z", Time(b));
    LessByParts(Date(a), Date(b), "T" + (Time(a) + "Z"), " " + Time(b));
  }
}
