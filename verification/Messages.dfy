/** The agent message bus: gateway/src/routes/messages.rs. Times are texts, as
    the table keeps and compares them. */
module Messages {
  import opened Prelude
  import opened Timestamps

  datatype Message = Message(id: nat, sender: string, recipient: Option<string>, channel: string, body: string,
                             createdAt: string)

  /** Who is asking, and for which channel. */
  datatype Subscription = Subscription(machine: string, channel: string)

  predicate Addressed(sub: Subscription, m: Message) {
    (m.recipient == Some(sub.machine) || m.recipient == None) && m.channel == sub.channel
  }

  /** The messages for a subscription, in the order of the table. */
  function Matching(rows: seq<Message>, sub: Subscription): seq<Message> {
    if rows == [] then []
    else (if Addressed(sub, rows[0]) then [rows[0]] else []) + Matching(rows[1..], sub)
  }

  /** The messages for a subscription that are newer than `since`. */
  function Newer(rows: seq<Message>, sub: Subscription, since: string): seq<Message> {
    if rows == [] then []
    else (if Addressed(sub, rows[0]) && Less(since, rows[0].createdAt) then [rows[0]] else [])
         + Newer(rows[1..], sub, since)
  }

  lemma At(rows: seq<Message>, i: nat, sub: Subscription, since: string)
    requires i < |rows|
    ensures Matching(rows[i..], sub)
         == (if Addressed(sub, rows[i]) then [rows[i]] else []) + Matching(rows[i + 1..], sub)
    ensures Newer(rows[i..], sub, since)
         == (if Addressed(sub, rows[i]) && Less(since, rows[i].createdAt) then [rows[i]] else [])
            + Newer(rows[i + 1..], sub, since)
  {
    assert rows[i..][1..] == rows[i + 1..];
  }

  /** Ids are assigned in order, from 1. */
  predicate Numbered(rows: seq<Message>) {
    forall i :: 0 <= i < |rows| ==> rows[i].id == i + 1
  }

  /** The rows after an id. */
  function Later(rows: seq<Message>, lastId: nat): seq<Message> {
    if lastId <= |rows| then rows[lastId..] else []
  }

  /** The agent_messages table. */
  class Bus {
    var rows: seq<Message>

    predicate Valid()
      reads this
    {
      Numbered(rows)
    }

    constructor ()
      ensures Valid() && rows == []
    {
      rows := [];
    }

    method PostMessage(sender: string, to: Option<string>, channel: string, body: string, now: string)
      returns (id: nat, createdAt: string)
      requires Valid()
      modifies this
      ensures Valid()
      ensures rows == old(rows) + [Message(id, sender, to, channel, body, createdAt)]
      ensures id == |rows| && createdAt == now
    {
      id := |rows| + 1;
      rows := rows + [Message(id, sender, to, channel, body, now)];
      createdAt := rows[id - 1].createdAt;
    }

    /** `poll_messages`: newer by time. */
    method PollMessages(sub: Subscription, since: string) returns (messages: seq<Message>)
      ensures messages == Newer(rows, sub, since)
    {
      messages := [];
      assert rows[0..] == rows;
      for i := 0 to |rows|
        invariant messages + Newer(rows[i..], sub, since) == Newer(rows, sub, since)
      {
        ghost var before := messages;
        if Addressed(sub, rows[i]) && Less(since, rows[i].createdAt) {
          messages := messages + [rows[i]];
        }
        hide *;
        At(rows, i, sub, since);
        Associative(before, if Addressed(sub, rows[i]) && Less(since, rows[i].createdAt) then [rows[i]] else [],
                    Newer(rows[i + 1..], sub, since));
      }
      assert messages + [] == messages;
    }

    /** `fetch_new_messages`: newer by id. */
    method FetchNewMessages(sub: Subscription, lastId: nat) returns (messages: seq<Message>)
      requires Valid()
      ensures messages == Matching(Later(rows, lastId), sub)
    {
      messages := [];
      for i := 0 to |rows|
        invariant if i < lastId then messages == []
                  else messages + Matching(rows[i..], sub) == Matching(Later(rows, lastId), sub)
      {
        ghost var before := messages;
        if Addressed(sub, rows[i]) && rows[i].id > lastId {
          messages := messages + [rows[i]];
        }
        if i >= lastId {
          hide *;
          At(rows, i, sub, "");
          Associative(before, if Addressed(sub, rows[i]) then [rows[i]] else [], Matching(rows[i + 1..], sub));
        }
      }
      assert messages + [] == messages;
    }
  }

  // ------------------------------------------------------ the stream

  /** Between polls the stream holds a watermark; during a poll's loop it also
      holds the rows still to be yielded. `polled` remembers how many rows the
      table had at the last successful poll. */
  datatype StreamState = StreamState(lastId: nat, batch: seq<Message>, yielded: seq<Message>, polled: nat)

  function Max(a: nat, b: nat): nat {
    if a < b then b else a
  }

  /** The stream task of one client. */
  class Stream {
    const sub: Subscription
    var lastId: nat
    var batch: seq<Message>
    var yielded: seq<Message>
    var polled: nat

    function View(): StreamState
      reads this
    {
      StreamState(lastId, batch, yielded, polled)
    }

    constructor (sub: Subscription)
      ensures this.sub == sub && View() == StreamState(0, [], [], 0)
    {
      this.sub := sub;
      lastId, batch, yielded, polled := 0, [], [], 0;
    }

    /** One poll tick; the fetch fails if the database does. */
    method Poll(bus: Bus, available: bool)
      requires bus.Valid() && batch == []
      modifies this
      ensures View() == Next(sub, old(System(bus.rows, View())), if available then PollOk else PollFailed).stream
    {
      if available {
        batch := bus.FetchNewMessages(sub, lastId);
        polled := |bus.rows|;
      }
    }

    /** One round of the loop over the fetched rows. */
    method Yield() returns (m: Message)
      requires batch != []
      modifies this
      ensures forall rows :: View() == Next(sub, System(rows, old(View())), Step.Yield).stream
      ensures yielded == old(yielded) + [m]
    {
      m := batch[0];
      lastId := Max(m.id, lastId);
      yielded := yielded + [m];
      batch := batch[1..];
    }
  }

  /** What happens around one stream, in any order: posts by anybody, polls that
      succeed or fail, and yields. */
  datatype Step =
    | Post(sender: string, to: Option<string>, channel: string, body: string, now: string)
    | PollOk
    | PollFailed
    | Yield

  datatype System = System(rows: seq<Message>, stream: StreamState)

  predicate Enabled(s: System, step: Step) {
    match step
    case Post(_, _, _, _, _) => true
    case Yield => s.stream.batch != []
    case _ => s.stream.batch == []
  }

  function Next(sub: Subscription, s: System, step: Step): System
    requires Enabled(s, step)
  {
    match step
    case Post(sender, to, channel, body, now) =>
      s.(rows := s.rows + [Message(|s.rows| + 1, sender, to, channel, body, now)])
    case PollOk => s.(stream := s.stream.(batch := Matching(Later(s.rows, s.stream.lastId), sub), polled := |s.rows|))
    case PollFailed => s
    case Yield =>
      var m := s.stream.batch[0];
      s.(stream := StreamState(Max(m.id, s.stream.lastId), s.stream.batch[1..], s.stream.yielded + [m],
                               s.stream.polled))
  }

  /** The system after the steps, if each was possible. */
  function Run(sub: Subscription, s: System, steps: seq<Step>): Option<System>
    decreases |steps|
  {
    if steps == [] then Some(s)
    else if Enabled(s, steps[0]) then Run(sub, Next(sub, s, steps[0]), steps[1..])
    else None
  }

  const START := System([], StreamState(0, [], [], 0))

  // ---------------------------------------------------- exactly once

  lemma MatchingCons(m: Message, rest: seq<Message>, sub: Subscription)
    ensures Matching([m] + rest, sub) == (if Addressed(sub, m) then [m] else []) + Matching(rest, sub)
  {
    assert ([m] + rest)[1..] == rest;
  }

  lemma {:induction false} MatchingConcat(a: seq<Message>, b: seq<Message>, sub: Subscription)
    ensures Matching(a + b, sub) == Matching(a, sub) + Matching(b, sub)
  {
    if a == [] {
      assert a + b == b;
    } else {
      hide Matching;
      var m, rest := a[0], a[1..];
      assert a == [m] + rest && a + b == [m] + (rest + b);
      MatchingConcat(rest, b, sub);
      MatchingCons(m, rest, sub);
      MatchingCons(m, rest + b, sub);
    }
  }

  lemma MatchingSplit(rows: seq<Message>, lo: nat, mid: nat, hi: nat, sub: Subscription)
    requires lo <= mid <= hi <= |rows|
    ensures Matching(rows[lo..hi], sub) == Matching(rows[lo..mid], sub) + Matching(rows[mid..hi], sub)
  {
    hide Matching;
    assert rows[lo..hi] == rows[lo..mid] + rows[mid..hi];
    MatchingConcat(rows[lo..mid], rows[mid..hi], sub);
  }

  /** What the stream has yielded is exactly the matching rows up to its
      watermark, and what it still holds is the rest of its last poll. */
  predicate ExactlyOnce(sub: Subscription, s: System) {
    && Numbered(s.rows)
    && s.stream.lastId <= s.stream.polled <= |s.rows|
    && s.stream.yielded == Matching(s.rows[..s.stream.lastId], sub)
    && s.stream.batch == Matching(s.rows[s.stream.lastId..s.stream.polled], sub)
  }

  /** The first matching row of a stretch: nothing matches before it. */
  lemma {:induction false} FirstMatch(rows: seq<Message>, lo: nat, hi: nat, sub: Subscription)
    requires Numbered(rows) && lo <= hi <= |rows|
    requires Matching(rows[lo..hi], sub) != []
    ensures var batch := Matching(rows[lo..hi], sub);
            var id := batch[0].id;
            && lo < id <= hi
            && Matching(rows[lo..id], sub) == [batch[0]]
            && Matching(rows[id..hi], sub) == batch[1..]
    decreases hi - lo
  {
    var m := rows[lo];
    MatchingSplit(rows, lo, lo + 1, hi, sub);
    assert rows[lo..lo + 1] == [m];
    assert Matching([m], sub) == if Addressed(sub, m) then [m] else [];
    hide Matching;
    if !Addressed(sub, m) {
      FirstMatch(rows, lo + 1, hi, sub);
      MatchingSplit(rows, lo, lo + 1, Matching(rows[lo + 1..hi], sub)[0].id, sub);
    }
  }

  lemma ExactlyOnceYield(sub: Subscription, s: System)
    requires ExactlyOnce(sub, s) && Enabled(s, Yield)
    ensures ExactlyOnce(sub, Next(sub, s, Yield))
  {
    var lastId, polled := s.stream.lastId, s.stream.polled;
    FirstMatch(s.rows, lastId, polled, sub);
    var id := s.stream.batch[0].id;
    MatchingSplit(s.rows, 0, lastId, id, sub);
    hide Matching;
    assert s.rows[0..lastId] == s.rows[..lastId] && s.rows[0..id] == s.rows[..id];
  }

  lemma ExactlyOnceStep(sub: Subscription, s: System, step: Step)
    requires ExactlyOnce(sub, s) && Enabled(s, step)
    ensures ExactlyOnce(sub, Next(sub, s, step))
  {
    hide Matching;
    match step
    case Post(_, _, _, _, _) =>
      var s' := Next(sub, s, step);
      assert s'.rows[..s.stream.lastId] == s.rows[..s.stream.lastId];
      assert s'.rows[s.stream.lastId..s.stream.polled] == s.rows[s.stream.lastId..s.stream.polled];
    case PollOk =>
      assert s.rows[s.stream.lastId..|s.rows|] == s.rows[s.stream.lastId..];
    case PollFailed =>
    case Yield =>
      ExactlyOnceYield(sub, s);
  }

  /** Over every interleaving of posts, successful polls, failed polls and
      yields, the stream has yielded exactly the matching rows up to its
      watermark, in id order. */
  lemma {:induction false} StreamDelivers(sub: Subscription, s: System, steps: seq<Step>)
    requires ExactlyOnce(sub, s)
    requires Run(sub, s, steps).Some?
    ensures ExactlyOnce(sub, Run(sub, s, steps).value)
    decreases |steps|
  {
    if steps != [] {
      ExactlyOnceStep(sub, s, steps[0]);
      hide ExactlyOnce, Enabled, Next;
      StreamDelivers(sub, Next(sub, s, steps[0]), steps[1..]);
    }
  }

  lemma {:induction false} MatchingIsOrdered(rows: seq<Message>, sub: Subscription, lo: nat, hi: nat)
    requires Numbered(rows) && lo <= hi <= |rows|
    ensures var found := Matching(rows[lo..hi], sub);
            && (forall i, j :: 0 <= i < j < |found| ==> found[i].id < found[j].id)
            && (forall m :: m in found <==> m in rows && lo < m.id <= hi && Addressed(sub, m))
    decreases hi - lo
  {
    if lo < hi {
      var m := rows[lo];
      MatchingSplit(rows, lo, lo + 1, hi, sub);
      assert rows[lo..lo + 1] == [m];
      assert Matching([m], sub) == if Addressed(sub, m) then [m] else [];
      hide Matching;
      MatchingIsOrdered(rows, sub, lo + 1, hi);
      var found, rest := Matching(rows[lo..hi], sub), Matching(rows[lo + 1..hi], sub);
      forall x
        ensures x in found <==> x in rows && lo < x.id <= hi && Addressed(sub, x)
      {
        if x in rows && x.id == lo + 1 {
          var i :| 0 <= i < |rows| && rows[i] == x;
          assert i == lo;
        }
      }
    }
  }

  /** So no message comes twice, none is skipped, and once the rows of a poll
      are out, everything that was in the table at that poll has arrived. */
  lemma NoDuplicatesNoGaps(sub: Subscription, steps: seq<Step>)
    requires Run(sub, START, steps).Some?
    ensures var s := Run(sub, START, steps).value;
            var out := s.stream.yielded;
            && (forall i, j :: 0 <= i < j < |out| ==> out[i].id < out[j].id)
            && (forall m :: m in out <==> m in s.rows && m.id <= s.stream.lastId && Addressed(sub, m))
            && (s.stream.batch == [] ==>
                  forall m :: m in s.rows && m.id <= s.stream.polled && Addressed(sub, m) ==> m in out)
  {
    StreamDelivers(sub, START, steps);
    var s := Run(sub, START, steps).value;
    var lastId, polled := s.stream.lastId, s.stream.polled;
    assert Numbered(s.rows) && lastId <= polled <= |s.rows|;
    assert s.rows[0..lastId] == s.rows[..lastId];
    MatchingIsOrdered(s.rows, sub, 0, lastId);
    MatchingIsOrdered(s.rows, sub, lastId, polled);
    hide Matching, Run;
  }

  function WithoutFailures(steps: seq<Step>): seq<Step> {
    if steps == [] then []
    else (if steps[0].PollFailed? then [] else [steps[0]]) + WithoutFailures(steps[1..])
  }

  /** A failed poll loses nothing: the run goes on as if it had not happened. */
  lemma {:induction false} FailedPollsLoseNothing(sub: Subscription, s: System, steps: seq<Step>)
    requires Run(sub, s, steps).Some?
    ensures Run(sub, s, WithoutFailures(steps)) == Run(sub, s, steps)
    decreases |steps|
  {
    if steps != [] {
      FailedPollsLoseNothing(sub, Next(sub, s, steps[0]), steps[1..]);
      hide Next, Enabled;
      if steps[0].PollFailed? {
        assert [] + WithoutFailures(steps[1..]) == WithoutFailures(steps[1..]);
        assert Next(sub, s, steps[0]) == s by { NothingHappens(sub, s); }
      } else {
        assert ([steps[0]] + WithoutFailures(steps[1..]))[1..] == WithoutFailures(steps[1..]);
      }
    }
  }

  lemma NothingHappens(sub: Subscription, s: System)
    requires Enabled(s, PollFailed)
    ensures Next(sub, s, PollFailed) == s
  {
  }
}
