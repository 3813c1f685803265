/** Polling by time: a client that passes the greatest `created_at` it has
    seen (gateway/src/routes/messages.rs). */
module MessagePolling {
  import opened Prelude
  import opened Messages
  import opened Timestamps

  datatype Event =
    | Post(sender: string, to: Option<string>, channel: string, body: string, now: string)
    | Poll

  /** The table and the client. For each row, `held` remembers the client's
      `since` when the row was stored; `polled` is the length of the table at
      the last poll. */
  datatype State = State(rows: seq<Message>, since: string, received: seq<Message>, held: seq<string>, polled: nat)

  /** The greatest time in an answer, or the one the client had. */
  function Latest(messages: seq<Message>, since: string): string {
    if messages == [] then since
    else
      var last := messages[|messages| - 1].createdAt;
      var before := Latest(messages[..|messages| - 1], since);
      if Less(before, last) then last else before
  }

  function Next(sub: Subscription, s: State, e: Event): State {
    match e
    case Post(sender, to, channel, body, now) =>
      s.(rows := s.rows + [Message(|s.rows| + 1, sender, to, channel, body, now)], held := s.held + [s.since])
    case Poll =>
      var answer := Newer(s.rows, sub, s.since);
      s.(since := Latest(answer, s.since), received := s.received + answer, polled := |s.rows|)
  }

  function Run(sub: Subscription, s: State, events: seq<Event>): State
    decreases |events|
  {
    if events == [] then s else Run(sub, Next(sub, s, events[0]), events[1..])
  }

  /** The times of the posts never decrease, from `now` on. */
  predicate ClockAdvances(events: seq<Event>, now: string) {
    events == []
    || (match events[0]
        case Post(_, _, _, _, t) => AtMost(now, t) && ClockAdvances(events[1..], t)
        case Poll => ClockAdvances(events[1..], now))
  }

  /** The rows addressed to the client that were stored at a later second than
      the client held at that moment. */
  function Fresh(rows: seq<Message>, held: seq<string>, sub: Subscription): seq<Message>
    requires |rows| == |held|
  {
    if rows == [] then []
    else
      var n := |rows| - 1;
      Fresh(rows[..n], held[..n], sub)
      + if Addressed(sub, rows[n]) && Less(held[n], rows[n].createdAt) then [rows[n]] else []
  }

  /** The rows up to the last poll hold nothing newer than `since` for the
      client, and the rows after it were stored while the client held it. */
  predicate Covered(sub: Subscription, rows: seq<Message>, held: seq<string>, polled: nat, since: string)
    requires |held| == |rows|
  {
    && polled <= |rows|
    && (forall i :: polled <= i < |rows| ==> held[i] == since)
    && (forall i :: 0 <= i < polled && Addressed(sub, rows[i]) ==> AtMost(rows[i].createdAt, since))
  }

  /** No row is later than the clock, nor earlier than what the client held. */
  predicate Timed(rows: seq<Message>, held: seq<string>, now: string)
    requires |held| == |rows|
  {
    forall i :: 0 <= i < |rows| ==> AtMost(held[i], rows[i].createdAt) && AtMost(rows[i].createdAt, now)
  }

  /** The invariant behind the characterisation. */
  predicate Inv(sub: Subscription, s: State, now: string) {
    && Numbered(s.rows) && |s.held| == |s.rows|
    && Timed(s.rows, s.held, now) && AtMost(s.since, now)
    && Covered(sub, s.rows, s.held, s.polled, s.since)
    && s.received == Fresh(s.rows[..s.polled], s.held[..s.polled], sub)
  }

  function Taken(sub: Subscription, m: Message, since: string): seq<Message> {
    if Addressed(sub, m) && Less(since, m.createdAt) then [m] else []
  }

  lemma NewerCons(m: Message, rest: seq<Message>, sub: Subscription, since: string)
    ensures Newer([m] + rest, sub, since) == Taken(sub, m, since) + Newer(rest, sub, since)
  {
    assert ([m] + rest)[1..] == rest;
  }

  lemma {:induction false} NewerSnoc(rows: seq<Message>, m: Message, sub: Subscription, since: string)
    ensures Newer(rows + [m], sub, since) == Newer(rows, sub, since) + Taken(sub, m, since)
  {
    if rows == [] {
      NewerCons(m, [], sub, since);
      EmptyUnit([m]);
      EmptyUnit(Taken(sub, m, since));
    } else {
      hide *;
      var first, rest := rows[0], rows[1..];
      NewerSnoc(rest, m, sub, since);
      NewerCons(first, rest, sub, since);
      NewerCons(first, rest + [m], sub, since);
      assert rows == [first] + rest;
      Associative([first], rest, [m]);
      Associative(Taken(sub, first, since), Newer(rest, sub, since), Taken(sub, m, since));
    }
  }

  lemma {:induction false} NothingNewer(sub: Subscription, rows: seq<Message>, since: string)
    requires forall i :: 0 <= i < |rows| && Addressed(sub, rows[i]) ==> AtMost(rows[i].createdAt, since)
    ensures Newer(rows, sub, since) == []
  {
    if rows != [] {
      NothingNewer(sub, rows[1..], since);
    }
  }

  /** What a poll adds: the fresh rows since the last poll. */
  lemma {:induction false} PollAddsFresh(sub: Subscription, rows: seq<Message>, held: seq<string>, polled: nat,
                                         since: string, n: nat)
    requires |held| == |rows| && Covered(sub, rows, held, polled, since) && polled <= n <= |rows|
    ensures Fresh(rows[..n], held[..n], sub)
         == Fresh(rows[..polled], held[..polled], sub) + Newer(rows[..n], sub, since)
  {
    hide Fresh, Newer, Less, Addressed;
    if n == polled {
      NothingNewer(sub, rows[..polled], since);
      EmptyUnit(Fresh(rows[..polled], held[..polled], sub));
    } else {
      var m := rows[n - 1];
      assert held[n - 1] == since;
      hide *;
      PollAddsFresh(sub, rows, held, polled, since, n - 1);
      NewerSnoc(rows[..n - 1], m, sub, since);
      FreshSnoc(rows[..n - 1], held[..n - 1], m, since, sub);
      Associative(Fresh(rows[..polled], held[..polled], sub), Newer(rows[..n - 1], sub, since), Taken(sub, m, since));
      TakeSnoc(rows, n);
      TakeSnoc(held, n);
    }
  }

  lemma TakeSnoc<T>(s: seq<T>, n: nat)
    requires 0 < n <= |s|
    ensures s[..n] == s[..n - 1] + [s[n - 1]]
  {
  }

  lemma FreshSnoc(rows: seq<Message>, held: seq<string>, m: Message, since: string, sub: Subscription)
    requires |rows| == |held|
    ensures Fresh(rows + [m], held + [since], sub) == Fresh(rows, held, sub) + Taken(sub, m, since)
  {
    assert (rows + [m])[..|rows|] == rows && (held + [since])[..|held|] == held;
  }

  lemma {:induction false} LatestIsGreatest(messages: seq<Message>, since: string)
    ensures AtMost(since, Latest(messages, since))
    ensures forall m :: m in messages ==> AtMost(m.createdAt, Latest(messages, since))
    ensures Latest(messages, since) == since || exists m :: m in messages && m.createdAt == Latest(messages, since)
  {
    Total(since, since);
    if messages != [] {
      var front, last := messages[..|messages| - 1], messages[|messages| - 1];
      var before, after := Latest(front, since), Latest(messages, since);
      LatestIsGreatest(front, since);
      assert messages == front + [last];
      assert AtMost(before, after) && AtMost(last.createdAt, after) && (after == before || after == last.createdAt) by {
        hide Less;
        Total(before, last.createdAt);
        Total(before, before);
        Total(last.createdAt, last.createdAt);
      }
      hide Latest, Less, AtMost;
      Chain(since, before, after);
      forall m | m in messages
        ensures AtMost(m.createdAt, after)
      {
        if m in front {
          Chain(m.createdAt, before, after);
        }
      }
      assert forall m :: m in front ==> m in messages;
    }
  }

  lemma {:induction false} NewerHolds(rows: seq<Message>, sub: Subscription, since: string)
    ensures forall m :: m in Newer(rows, sub, since) <==> m in rows && Addressed(sub, m) && Less(since, m.createdAt)
  {
    if rows != [] {
      NewerHolds(rows[1..], sub, since);
      assert rows == [rows[0]] + rows[1..];
    }
  }

  function Clock(e: Event, now: string): string {
    if e.Post? then e.now else now
  }

  lemma TimedLater(rows: seq<Message>, held: seq<string>, now: string, later: string)
    requires |held| == |rows| && Timed(rows, held, now) && AtMost(now, later)
    ensures Timed(rows, held, later)
  {
    hide AtMost;
    forall i | 0 <= i < |rows|
      ensures AtMost(rows[i].createdAt, later)
    {
      Chain(rows[i].createdAt, now, later);
    }
  }

  lemma InvPost(sub: Subscription, s: State, e: Event, now: string)
    requires Inv(sub, s, now) && e.Post? && AtMost(now, e.now)
    ensures Inv(sub, Next(sub, s, e), e.now)
  {
    var s' := Next(sub, s, e);
    assert s'.rows[..s.polled] == s.rows[..s.polled] && s'.held[..s.polled] == s.held[..s.polled];
    Total(e.now, e.now);
    assert AtMost(e.now, e.now);
    hide Fresh, AtMost;
    TimedLater(s.rows, s.held, now, e.now);
    Chain(s.since, now, e.now);
  }

  lemma PollCovers(sub: Subscription, rows: seq<Message>, held: seq<string>, since: string)
    requires |held| == |rows|
    ensures Covered(sub, rows, held, |rows|, Latest(Newer(rows, sub, since), since))
  {
    var answer := Newer(rows, sub, since);
    LatestIsGreatest(answer, since);
    NewerHolds(rows, sub, since);
    hide Newer, Latest, Less;
    forall i | 0 <= i < |rows| && Addressed(sub, rows[i])
      ensures AtMost(rows[i].createdAt, Latest(answer, since))
    {
      if Less(since, rows[i].createdAt) {
        assert rows[i] in answer;
      } else {
        Chain(rows[i].createdAt, since, Latest(answer, since));
      }
    }
  }

  lemma PollKeepsTime(sub: Subscription, rows: seq<Message>, held: seq<string>, since: string, now: string)
    requires |held| == |rows| && Timed(rows, held, now) && AtMost(since, now)
    ensures AtMost(Latest(Newer(rows, sub, since), since), now)
  {
    LatestIsGreatest(Newer(rows, sub, since), since);
    NewerHolds(rows, sub, since);
    hide Newer, Latest, AtMost, Less;
  }

  lemma InvPoll(sub: Subscription, s: State, now: string)
    requires Inv(sub, s, now)
    ensures Inv(sub, Next(sub, s, Poll), now)
  {
    hide Covered, Timed, Fresh, Newer, Latest, Numbered;
    assert s.rows[..|s.rows|] == s.rows && s.held[..|s.held|] == s.held;
    assert s.polled <= |s.rows| by { PolledBound(sub, s.rows, s.held, s.polled, s.since); }
    PollAddsFresh(sub, s.rows, s.held, s.polled, s.since, |s.rows|);
    PollCovers(sub, s.rows, s.held, s.since);
    PollKeepsTime(sub, s.rows, s.held, s.since, now);
  }

  lemma PolledBound(sub: Subscription, rows: seq<Message>, held: seq<string>, polled: nat, since: string)
    requires |held| == |rows| && Covered(sub, rows, held, polled, since)
    ensures polled <= |rows|
  {
  }

  lemma {:induction false} InvRun(sub: Subscription, s: State, events: seq<Event>, now: string) returns (end: string)
    requires Inv(sub, s, now) && ClockAdvances(events, now)
    ensures Inv(sub, Run(sub, s, events), end)
    decreases |events|
  {
    end := now;
    if events != [] {
      var e := events[0];
      if e.Post? {
        InvPost(sub, s, e, now);
      } else {
        InvPoll(sub, s, now);
      }
      hide Inv, Next;
      end := InvRun(sub, Next(sub, s, e), events[1..], Clock(e, now));
    }
  }

  lemma {:induction false} FreshIsOrdered(rows: seq<Message>, held: seq<string>, sub: Subscription)
    requires |rows| == |held| && Numbered(rows)
    ensures var found := Fresh(rows, held, sub);
            && (forall i, j :: 0 <= i < j < |found| ==> found[i].id < found[j].id)
            && (forall m :: m in found ==> m.id <= |rows|)
  {
    if rows != [] {
      var n := |rows| - 1;
      FreshIsOrdered(rows[..n], held[..n], sub);
      hide Addressed, Less;
      assert rows[n].id == n + 1;
    }
  }

  /** An id belongs to one row. */
  lemma {:induction false} FreshHolds(rows: seq<Message>, held: seq<string>, sub: Subscription, i: nat)
    requires |rows| == |held| && Numbered(rows) && i < |rows|
    ensures rows[i] in Fresh(rows, held, sub) <==> Addressed(sub, rows[i]) && Less(held[i], rows[i].createdAt)
    decreases |rows|
  {
    var n := |rows| - 1;
    var front := Fresh(rows[..n], held[..n], sub);
    FreshIsOrdered(rows[..n], held[..n], sub);
    assert rows[n].id == n + 1 && rows[i].id == i + 1;
    if i < n {
      FreshHolds(rows[..n], held[..n], sub, i);
      hide Addressed, Less;
      assert rows[..n][i] == rows[i] && held[..n][i] == held[i];
    } else {
      hide Addressed, Less;
      assert rows[n] !in front;
    }
  }

  /** With a clock that never goes back, over every interleaving of posts and
      polls: the client receives no message twice, and of the messages for it
      that were stored by its last poll it misses exactly those stored in the
      very second that it was holding as `since`. */
  lemma PollingCharacterised(sub: Subscription, events: seq<Event>, since: string)
    requires ClockAdvances(events, since)
    ensures var s := Run(sub, State([], since, [], [], 0), events);
            && |s.held| == |s.rows| && s.polled <= |s.rows|
            && (forall i, j :: 0 <= i < j < |s.received| ==> s.received[i].id < s.received[j].id)
            && (forall i :: 0 <= i < s.polled && Addressed(sub, s.rows[i]) ==>
                  (s.rows[i] !in s.received <==> s.rows[i].createdAt == s.held[i]))
  {
    var start := State([], since, [], [], 0);
    Total(since, since);
    assert Inv(sub, start, since);
    var end := InvRun(sub, start, events, since);
    var s := Run(sub, start, events);
    hide Run;
    var rows, held := s.rows[..s.polled], s.held[..s.polled];
    FreshIsOrdered(rows, held, sub);
    hide Fresh, Addressed;
    assert s.received == Fresh(rows, held, sub);
    forall i | 0 <= i < s.polled && Addressed(sub, s.rows[i])
      ensures s.rows[i] !in s.received <==> s.rows[i].createdAt == s.held[i]
    {
      assert rows[i] == s.rows[i] && held[i] == s.held[i];
      FreshHolds(rows, held, sub, i);
      Total(held[i], rows[i].createdAt);
    }
  }

  function Sent(sub: Subscription, body: string, t: string): Event {
    Event.Post("m", Some(sub.machine), sub.channel, body, t)
  }

  /** The loss is real: a second message stored in the second of the last one
      seen is never delivered by later polls. */
  lemma SameSecondIsLost(sub: Subscription, a: string, b: string, t: string)
    requires t != ""
    ensures var s := Run(sub, State([], "", [], [], 0), [Sent(sub, a, t), Poll, Sent(sub, b, t), Poll]);
            && |s.rows| == 2 && s.rows[1].body == b && Addressed(sub, s.rows[1])
            && s.received == [s.rows[0]]
  {
    var p0, p1 := Sent(sub, a, t), Sent(sub, b, t);
    var m0 := Message(1, "m", Some(sub.machine), sub.channel, a, t);
    var m1 := Message(2, "m", Some(sub.machine), sub.channel, b, t);
    var s0 := State([], "", [], [], 0);
    var s1 := Next(sub, s0, p0);
    assert s1 == State([m0], "", [], [""], 0);
    Total(t, t);
    assert [m0][1..] == [];
    assert Newer([m0], sub, "") == [m0];
    assert Latest([m0], "") == t;
    var s2 := Next(sub, s1, Poll);
    assert s2 == State([m0], t, [m0], [""], 1);
    var s3 := Next(sub, s2, p1);
    assert s3 == State([m0, m1], t, [m0], ["", t], 1);
    assert [m0, m1][1..] == [m1] && [m1][1..] == [];
    assert Newer([m1], sub, t) == [];
    assert Newer([m0, m1], sub, t) == [] + Newer([m1], sub, t);
    var s4 := Next(sub, s3, Poll);
    assert s4 == State([m0, m1], t, [m0], ["", t], 2);
    assert [p0, Poll, p1, Poll][1..] == [Poll, p1, Poll];
    assert [Poll, p1, Poll][1..] == [p1, Poll];
    assert [p1, Poll][1..] == [Poll];
    assert [Poll][1..] == [];
    hide Next, Newer, Latest, Less;
    assert Run(sub, s4, []) == s4;
    assert Run(sub, s3, [Poll]) == s4;
    assert Run(sub, s2, [p1, Poll]) == s4;
    assert Run(sub, s1, [Poll, p1, Poll]) == s4;
    assert Run(sub, s0, [p0, Poll, p1, Poll]) == s4;
  }

  /** Rows with the stored form of their times. */
  predicate Stamped(rows: seq<Message>, times: seq<DateTime>) {
    && |times| == |rows|
    && forall i :: 0 <= i < |rows| ==> Timestamps.Valid(times[i]) && rows[i].createdAt == Stored(times[i])
  }

  /** A poll whose `since` is in the stored form gives the rows of later
      seconds; in the ISO form, the rows of later days only. What the ISO form
      misses is thus exactly what was stored later on its own day. */
  lemma IsoPollMissesItsDay(rows: seq<Message>, times: seq<DateTime>, sub: Subscription, since: DateTime, i: nat)
    requires Stamped(rows, times) && Timestamps.Valid(since) && i < |rows|
    ensures rows[i] in Newer(rows, sub, Stored(since)) <==> Addressed(sub, rows[i]) && Earlier(since, times[i])
    ensures rows[i] in Newer(rows, sub, Iso(since)) <==> Addressed(sub, rows[i]) && EarlierDay(since, times[i])
    ensures rows[i] in Newer(rows, sub, Stored(since)) && rows[i] !in Newer(rows, sub, Iso(since))
       <==> Addressed(sub, rows[i]) && SameDay(since, times[i]) && EarlierInDay(since, times[i])
  {
    StoredOrder(since, times[i]);
    IsoOrder(since, times[i]);
    hide Less, Stored, Iso, Addressed, Newer;
    NewerHolds(rows, sub, Stored(since));
    NewerHolds(rows, sub, Iso(since));
  }
}
