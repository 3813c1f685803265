/** Overlapping `verify_assertion` calls (gateway/src/crypto/webauthn.rs). A call
    loads the counter, loads the key, and updates the counter in three database
    steps, and the steps of different calls interleave. */
module AssertionRuns {
  import opened Prelude
  import opened Assertion

  /** One database step of a call, named by its index. */
  datatype Step = LoadCounter(call: nat) | LoadKey(call: nat) | Update(call: nat)

  /** The table, the calls whose counter check passed, and those that passed all
      checks and are about to update. A call is accepted when it has updated. */
  datatype State = State(rows: seq<CredentialRow>, loaded: set<nat>, passed: set<nat>)

  predicate Enabled(calls: seq<Call>, s: State, step: Step) {
    && step.call < |calls|
    && (step.LoadKey? ==> step.call in s.loaded)
    && (step.Update? ==> step.call in s.passed)
  }

  function Next(lib: Library, calls: seq<Call>, s: State, step: Step): State
    requires Enabled(calls, s, step)
  {
    var i, c := step.call, calls[step.call];
    match step
    case LoadCounter(_) =>
      State(s.rows, if CounterPasses(s.rows, c) then s.loaded + {i} else s.loaded - {i}, s.passed - {i})
    case LoadKey(_) =>
      State(s.rows, s.loaded - {i}, if Genuine(lib, s.rows, c) then s.passed + {i} else s.passed - {i})
    case Update(_) => State(Updated(s.rows, c), s.loaded, s.passed - {i})
  }

  /** The states that the steps go through. */
  ghost predicate IsRun(lib: Library, calls: seq<Call>, steps: seq<Step>, states: seq<State>) {
    && |states| == |steps| + 1
    && states[0].loaded == {} && states[0].passed == {}
    && forall k: nat | k < |steps| :: Takes(lib, calls, states[k], steps[k], states[k + 1])
  }

  ghost predicate Takes(lib: Library, calls: seq<Call>, s: State, step: Step, s': State) {
    Enabled(calls, s, step) && s' == Next(lib, calls, s, step)
  }

  lemma StepTaken(lib: Library, calls: seq<Call>, steps: seq<Step>, states: seq<State>, k: nat)
    requires IsRun(lib, calls, steps, states) && k < |steps|
    ensures |states| == |steps| + 1
    ensures Enabled(calls, states[k], steps[k])
    ensures states[k + 1] == Next(lib, calls, states[k], steps[k])
  {
    hide Enabled, Next;
    assert Takes(lib, calls, states[k], steps[k], states[k + 1]);
  }

  lemma RunStarts(lib: Library, calls: seq<Call>, steps: seq<Step>, states: seq<State>)
    requires IsRun(lib, calls, steps, states)
    ensures |states| == |steps| + 1 && states[0].loaded == {} && states[0].passed == {}
  {
  }

  /** The step updates the credential's counter. */
  predicate Updates(calls: seq<Call>, step: Step, tenant: string, id: string) {
    step.Update? && step.call < |calls| && For(calls[step.call], tenant, id)
  }

  function StoredAt(states: seq<State>, n: nat, tenant: string, id: string): Option<nat>
    requires n < |states|
  {
    StoredCounter(states[n].rows, tenant, id)
  }

  /** The counts accepted for a credential in the first `n` steps, in order. */
  function Completed(calls: seq<Call>, steps: seq<Step>, n: nat, tenant: string, id: string): seq<nat>
    requires n <= |steps|
  {
    if n == 0 then []
    else
      Completed(calls, steps, n - 1, tenant, id)
      + if Updates(calls, steps[n - 1], tenant, id) then [Asserted(calls[steps[n - 1].call])] else []
  }

  // ---------------------------------------------- in every run at all

  /** What a step does to a credential's stored counter. */
  lemma StoredAfterStep(lib: Library, calls: seq<Call>, steps: seq<Step>, states: seq<State>, k: nat,
                        tenant: string, id: string)
    requires IsRun(lib, calls, steps, states) && k < |steps| && Served(calls, tenant, id)
    ensures |states| == |steps| + 1
    ensures StoredAt(states, k + 1, tenant, id)
         == if Updates(calls, steps[k], tenant, id) && StoredAt(states, k, tenant, id).Some?
            then Some(Asserted(calls[steps[k].call])) else StoredAt(states, k, tenant, id)
  {
    StepTaken(lib, calls, steps, states, k);
    var c := calls[steps[k].call];
    assert c in calls;
    AdvancedLive(states[k].rows, c.tenant, c.response.credentialId, Asserted(c), tenant, id);
    hide Live, Advanced, IsRun, Genuine, Asserted, CounterPasses;
  }

  lemma {:induction false} NeverBoth(lib: Library, calls: seq<Call>, steps: seq<Step>, states: seq<State>,
                                     c: nat, n: nat)
    requires IsRun(lib, calls, steps, states) && n <= |steps|
    ensures |states| == |steps| + 1
    ensures c !in states[n].loaded || c !in states[n].passed
  {
    RunStarts(lib, calls, steps, states);
    if n > 0 {
      StepTaken(lib, calls, steps, states, n - 1);
      NeverBoth(lib, calls, steps, states, c, n - 1);
      hide IsRun, CounterPasses, Genuine, Updated;
    }
  }

  /** A call gets past the counter check by its own load alone, and stays there
      until its update. */
  lemma HeldAfterStep(lib: Library, calls: seq<Call>, s: State, step: Step, c: nat)
    requires Enabled(calls, s, step) && (c !in s.loaded || c !in s.passed)
    requires c in Next(lib, calls, s, step).loaded || c in Next(lib, calls, s, step).passed
    ensures step == LoadCounter(c) ==> c < |calls| && CounterPasses(s.rows, calls[c])
    ensures step != LoadCounter(c) ==> (c in s.loaded || c in s.passed) && step != Update(c)
  {
    hide CounterPasses, Genuine, Updated;
  }

  /** Step `i` is the call's last load of the counter before step `j`. */
  predicate LoadsFor(steps: seq<Step>, i: nat, j: nat, call: nat)
    requires j <= |steps|
  {
    && i < j && steps[i] == LoadCounter(call)
    && forall k :: i < k < j ==> steps[k] != LoadCounter(call)
  }

  /** The call does not update strictly between these steps. */
  predicate NoUpdate(steps: seq<Step>, i: nat, j: nat, call: nat)
    requires j <= |steps|
  {
    forall k :: i < k < j ==> steps[k] != Update(call)
  }

  lemma LoadsForNow(steps: seq<Step>, i: nat, c: nat)
    requires i < |steps| && steps[i] == LoadCounter(c)
    ensures LoadsFor(steps, i, i + 1, c) && NoUpdate(steps, i, i + 1, c)
  {
  }

  lemma LoadsForLonger(steps: seq<Step>, i: nat, n: nat, c: nat)
    requires 0 < n <= |steps| && LoadsFor(steps, i, n - 1, c) && NoUpdate(steps, i, n - 1, c)
    requires steps[n - 1] != LoadCounter(c) && steps[n - 1] != Update(c)
    ensures LoadsFor(steps, i, n, c) && NoUpdate(steps, i, n, c)
  {
  }

  /** A call about to update has passed the counter check at its last load, and
      has not updated since. */
  lemma {:induction false} PassedWasLoaded(lib: Library, calls: seq<Call>, steps: seq<Step>, states: seq<State>,
                                           c: nat, n: nat)
    returns (i: nat)
    requires IsRun(lib, calls, steps, states) && n <= |steps|
    requires c in states[n].loaded || c in states[n].passed
    ensures |states| == |steps| + 1 && c < |calls| && LoadsFor(steps, i, n, c)
    ensures CounterPasses(states[i].rows, calls[c])
    ensures NoUpdate(steps, i, n, c)
  {
    hide *;
    RunStarts(lib, calls, steps, states);
    StepTaken(lib, calls, steps, states, n - 1);
    NeverBoth(lib, calls, steps, states, c, n - 1);
    HeldAfterStep(lib, calls, states[n - 1], steps[n - 1], c);
    if steps[n - 1] == LoadCounter(c) {
      i := n - 1;
      LoadsForNow(steps, i, c);
    } else {
      i := PassedWasLoaded(lib, calls, steps, states, c, n - 1);
      LoadsForLonger(steps, i, n, c);
    }
  }

  /** Step `k`, if it updates the credential, does so with a count that still
      passes against the counter stored by then. */
  predicate StillValid(calls: seq<Call>, steps: seq<Step>, states: seq<State>, k: nat, tenant: string, id: string)
    requires k < |steps| && k < |states|
  {
    Updates(calls, steps[k], tenant, id) ==>
      var stored := StoredAt(states, k, tenant, id);
      stored.Some? && CounterIsValid(stored.value, Asserted(calls[steps[k].call]))
  }

  lemma {:induction false} ChainedSnoc(prev: nat, counts: seq<nat>, n: nat)
    ensures Chained(prev, counts + [n]) <==> Chained(prev, counts) && CounterIsValid(Last(prev, counts), n)
    ensures Last(prev, counts + [n]) == n
    decreases |counts|
  {
    if counts == [] {
      assert counts + [n] == [n] && [n][1..] == [];
    } else {
      assert (counts + [n])[1..] == counts[1..] + [n];
      ChainedSnoc(counts[0], counts[1..], n);
      assert Last(counts[0], counts[1..]) == Last(prev, counts);
      hide CounterIsValid;
    }
  }

  /** In every interleaving the stored counter is the last accepted count, and
      the accepted counts are checked one against the next exactly when every
      update still passes at its own moment. */
  lemma {:induction false} ChainedIffStillValid(lib: Library, calls: seq<Call>, steps: seq<Step>, states: seq<State>,
                                                n: nat, tenant: string, id: string)
    requires IsRun(lib, calls, steps, states) && n <= |steps| && Served(calls, tenant, id)
    requires states != [] && StoredAt(states, 0, tenant, id).Some?
    ensures |states| == |steps| + 1
    ensures var start, counts := StoredAt(states, 0, tenant, id).value, Completed(calls, steps, n, tenant, id);
            && StoredAt(states, n, tenant, id) == Some(Last(start, counts))
            && (Chained(start, counts) <==> forall k: nat | k < n :: StillValid(calls, steps, states, k, tenant, id))
  {
    hide *;
    RunStarts(lib, calls, steps, states);
    if n == 0 {
      NothingCompleted(calls, steps, StoredAt(states, 0, tenant, id).value, tenant, id);
    } else {
      var start := StoredAt(states, 0, tenant, id).value;
      var before := Completed(calls, steps, n - 1, tenant, id);
      ChainedIffStillValid(lib, calls, steps, states, n - 1, tenant, id);
      StoredAfterStep(lib, calls, steps, states, n - 1, tenant, id);
      CompletedStep(calls, steps, states, n - 1, tenant, id);
      if Updates(calls, steps[n - 1], tenant, id) {
        ChainedSnoc(start, before, Asserted(calls[steps[n - 1].call]));
      }
    }
  }

  lemma NothingCompleted(calls: seq<Call>, steps: seq<Step>, start: nat, tenant: string, id: string)
    ensures Completed(calls, steps, 0, tenant, id) == []
    ensures Chained(start, []) && Last(start, []) == start
  {
  }

  lemma CompletedStep(calls: seq<Call>, steps: seq<Step>, states: seq<State>, k: nat, tenant: string, id: string)
    requires k < |steps| && k < |states|
    ensures var before, after := Completed(calls, steps, k, tenant, id), Completed(calls, steps, k + 1, tenant, id);
            var stored := StoredAt(states, k, tenant, id);
            if Updates(calls, steps[k], tenant, id)
            then && steps[k].call < |calls| && after == before + [Asserted(calls[steps[k].call])]
                 && (StillValid(calls, steps, states, k, tenant, id)
                     <==> stored.Some? && CounterIsValid(stored.value, Asserted(calls[steps[k].call])))
            else after == before && StillValid(calls, steps, states, k, tenant, id)
  {
    hide Asserted, StoredAt, CounterIsValid;
  }

  // ------------------------------------------------- mutual exclusion

  /** No call updates the credential between another one's load and update. */
  predicate Exclusive(calls: seq<Call>, steps: seq<Step>, tenant: string, id: string) {
    forall i: nat, j: nat, k: nat | i < k < j < |steps| && steps[k].call != steps[j].call
                                    && Updates(calls, steps[j], tenant, id) && LoadsFor(steps, i, j, steps[j].call) ::
      !Updates(calls, steps[k], tenant, id)
  }

  /** The stored counter stays while nobody updates the credential. */
  lemma {:induction false} StoredStays(lib: Library, calls: seq<Call>, steps: seq<Step>, states: seq<State>,
                                       i: nat, j: nat, tenant: string, id: string)
    requires IsRun(lib, calls, steps, states) && i <= j <= |steps| && Served(calls, tenant, id)
    requires forall k :: i <= k < j ==> !Updates(calls, steps[k], tenant, id)
    ensures |states| == |steps| + 1
    ensures StoredAt(states, i, tenant, id) == StoredAt(states, j, tenant, id)
  {
    RunStarts(lib, calls, steps, states);
    if i < j {
      hide IsRun, StoredAt, Served;
      StoredStays(lib, calls, steps, states, i, j - 1, tenant, id);
      StoredAfterStep(lib, calls, steps, states, j - 1, tenant, id);
    }
  }

  lemma ExclusiveIsStillValid(lib: Library, calls: seq<Call>, steps: seq<Step>, states: seq<State>, j: nat,
                              tenant: string, id: string)
    requires IsRun(lib, calls, steps, states) && j < |steps| && Served(calls, tenant, id)
    requires Exclusive(calls, steps, tenant, id)
    requires states != [] && StoredAt(states, 0, tenant, id).Some?
    ensures |states| == |steps| + 1
    ensures StillValid(calls, steps, states, j, tenant, id)
  {
    RunStarts(lib, calls, steps, states);
    if Updates(calls, steps[j], tenant, id) {
      StepTaken(lib, calls, steps, states, j);
      var c := steps[j].call;
      var i := PassedWasLoaded(lib, calls, steps, states, c, j);
      assert calls[c] in calls;
      assert steps[i] == LoadCounter(c);
      hide IsRun, Genuine, Asserted, CounterIsValid, Chained, Last;
      assert forall k :: i <= k < j ==> !Updates(calls, steps[k], tenant, id);
      StoredStays(lib, calls, steps, states, i, j, tenant, id);
      ChainedIffStillValid(lib, calls, steps, states, j, tenant, id);
    }
  }

  lemma {:induction false} CompletedAreU32(calls: seq<Call>, steps: seq<Step>, n: nat, tenant: string, id: string)
    requires n <= |steps|
    ensures forall x :: x in Completed(calls, steps, n, tenant, id) ==> x < U32
  {
    if n > 0 {
      CompletedAreU32(calls, steps, n - 1, tenant, id);
    }
  }

  /** Replay protection under concurrency: if no update of a credential falls
      between another call's load and update for it, then however the calls
      interleave its accepted non-zero counts strictly increase, a count comes
      back only after an accepted zero, and k acceptances without a zero take
      the stored counter at least k further. */
  lemma ConcurrentReplayProtection(lib: Library, calls: seq<Call>, steps: seq<Step>, states: seq<State>,
                                   tenant: string, id: string)
    requires IsRun(lib, calls, steps, states) && Served(calls, tenant, id)
    requires states != [] && StoredAt(states, 0, tenant, id).Some?
    requires Exclusive(calls, steps, tenant, id)
    ensures |states| == |steps| + 1
    ensures var start := StoredAt(states, 0, tenant, id).value;
            var counts := Completed(calls, steps, |steps|, tenant, id);
            && (forall i :: 0 < i < |counts| && counts[i - 1] != 0 && counts[i] != 0 ==> counts[i - 1] < counts[i])
            && (forall i, j :: 0 <= i < j < |counts| && counts[i] == counts[j] != 0 ==>
                  exists k :: i < k < j && counts[k] == 0)
            && StoredAt(states, |steps|, tenant, id) == Some(Last(start, counts))
            && (0 !in counts ==> Last(start, counts) >= start + |counts| && (counts != [] ==> start + |counts| < U32))
  {
    hide *;
    RunStarts(lib, calls, steps, states);
    var start := StoredAt(states, 0, tenant, id).value;
    var counts := Completed(calls, steps, |steps|, tenant, id);
    forall k: nat | k < |steps|
      ensures StillValid(calls, steps, states, k, tenant, id)
    {
      ExclusiveIsStillValid(lib, calls, steps, states, k, tenant, id);
    }
    ChainedIffStillValid(lib, calls, steps, states, |steps|, tenant, id);
    CompletedAreU32(calls, steps, |steps|, tenant, id);
    NeighboursRise(start, counts);
    OnlyAfterZero(start, counts);
    if 0 !in counts {
      StartRises(start, counts);
    }
  }

  /** The race: two calls with the same non-zero count that both load before
      either updates are both accepted, where one after the other the second
      is refused. */
  lemma RaceAcceptsTwice(lib: Library, rows: seq<CredentialRow>, a: Call, b: Call, tenant: string, id: string)
    returns (steps: seq<Step>, states: seq<State>)
    requires For(a, tenant, id) && For(b, tenant, id) && Served([a, b], tenant, id)
    requires Accepts(lib, rows, a) && Accepts(lib, rows, b) && Asserted(a) == Asserted(b) != 0
    ensures IsRun(lib, [a, b], steps, states) && states[0].rows == rows
    ensures Completed([a, b], steps, |steps|, tenant, id) == [Asserted(a), Asserted(b)]
    ensures !Accepts(lib, After(lib, rows, a), b)
  {
    var calls, rows1 := [a, b], Updated(rows, a);
    assert a in calls && b in calls;
    steps := [LoadCounter(0), LoadCounter(1), LoadKey(0), LoadKey(1), Update(0), Update(1)];
    states := [State(rows, {}, {}), State(rows, {0}, {}), State(rows, {0, 1}, {}), State(rows, {1}, {0}),
               State(rows, {}, {0, 1}), State(rows1, {}, {1}), State(Updated(rows1, b), {}, {})];
    CounterAfter(lib, rows, a, tenant, id);
    RaceSteps(lib, rows, a, b);
    hide Genuine, CounterPasses, Updated, Asserted, Takes, Served;
    RaceCompletes(calls, steps, tenant, id);
  }

  lemma RaceCompletes(calls: seq<Call>, steps: seq<Step>, tenant: string, id: string)
    requires |calls| == 2 && For(calls[0], tenant, id) && For(calls[1], tenant, id)
    requires steps == [LoadCounter(0), LoadCounter(1), LoadKey(0), LoadKey(1), Update(0), Update(1)]
    ensures Completed(calls, steps, 6, tenant, id) == [Asserted(calls[0]), Asserted(calls[1])]
  {
    hide Asserted, For;
    assert Completed(calls, steps, 0, tenant, id) == [];
    assert Completed(calls, steps, 1, tenant, id) == [];
    assert Completed(calls, steps, 2, tenant, id) == [];
    assert Completed(calls, steps, 3, tenant, id) == [];
    assert Completed(calls, steps, 4, tenant, id) == [];
    assert Completed(calls, steps, 5, tenant, id) == [Asserted(calls[0])];
  }

  lemma RaceSteps(lib: Library, rows: seq<CredentialRow>, a: Call, b: Call)
    requires Genuine(lib, rows, a) && CounterPasses(rows, a) && Genuine(lib, rows, b) && CounterPasses(rows, b)
    ensures var calls, rows1 := [a, b], Updated(rows, a);
            && Takes(lib, calls, State(rows, {}, {}), LoadCounter(0), State(rows, {0}, {}))
            && Takes(lib, calls, State(rows, {0}, {}), LoadCounter(1), State(rows, {0, 1}, {}))
            && Takes(lib, calls, State(rows, {0, 1}, {}), LoadKey(0), State(rows, {1}, {0}))
            && Takes(lib, calls, State(rows, {1}, {0}), LoadKey(1), State(rows, {}, {0, 1}))
            && Takes(lib, calls, State(rows, {}, {0, 1}), Update(0), State(rows1, {}, {1}))
            && Takes(lib, calls, State(rows1, {}, {1}), Update(1), State(Updated(rows1, b), {}, {}))
  {
    hide Genuine, CounterPasses, Updated;
    assert {0, 1} - {0} == {1} && {1} - {1} == {} && {0} + {1} == {0, 1};
  }
}
