/** Interleaved `entry` calls (gateway/src/audit/log.rs). A call reads the last
    hash of its tenant and inserts its row in two database steps, and the steps
    of different calls interleave. */
module AuditRuns {
  import opened Prelude
  import opened HybridSig
  import opened Audit
  import AuditTamper

  /** One database step of a call, named by its index. */
  datatype Step = Read(call: nat) | Insert(call: nat)

  /** The table, and what each call between its two steps has read. */
  datatype State = State(rows: seq<Row>, pending: map<nat, string>)

  predicate Enabled(calls: seq<Args>, s: State, step: Step) {
    && step.call < |calls|
    && (step.Insert? ==> step.call in s.pending)
  }

  function Next(p: Primitives, calls: seq<Args>, s: State, step: Step): State
    requires Enabled(calls, s, step)
  {
    var c := step.call;
    match step
    case Read(_) => s.(pending := s.pending[c := LastHash(s.rows, calls[c].tenant)])
    case Insert(_) => State(s.rows + [MakeRow(p, |s.rows| + 1, calls[c], s.pending[c])], s.pending - {c})
  }

  /** The states that the steps go through, from the empty table. */
  ghost predicate IsRun(p: Primitives, calls: seq<Args>, steps: seq<Step>, states: seq<State>) {
    && |states| == |steps| + 1
    && states[0] == State([], map[])
    && forall k: nat | k < |steps| :: Takes(p, calls, states[k], steps[k], states[k + 1])
  }

  ghost predicate Takes(p: Primitives, calls: seq<Args>, s: State, step: Step, s': State) {
    Enabled(calls, s, step) && s' == Next(p, calls, s, step)
  }

  lemma StepTaken(p: Primitives, calls: seq<Args>, steps: seq<Step>, states: seq<State>, k: nat)
    requires IsRun(p, calls, steps, states) && k < |steps|
    ensures |states| == |steps| + 1
    ensures Enabled(calls, states[k], steps[k])
    ensures states[k + 1] == Next(p, calls, states[k], steps[k])
  {
    hide Enabled, Next;
    assert Takes(p, calls, states[k], steps[k], states[k + 1]);
  }

  lemma RunStarts(p: Primitives, calls: seq<Args>, steps: seq<Step>, states: seq<State>)
    requires IsRun(p, calls, steps, states)
    ensures |states| == |steps| + 1 && states[0] == State([], map[])
  {
  }

  /** The step inserts a row for the tenant. */
  predicate Writes(calls: seq<Args>, step: Step, tenant: string) {
    step.Insert? && step.call < |calls| && calls[step.call].tenant == tenant
  }

  // ------------------------------------------- in every run at all

  /** A made row keeps its call's fields, and its hash and its signature are
      over the message the verifiers rebuild. */
  lemma MadeRow(p: Primitives, number: nat, a: Args, prev: string)
    ensures var r := MakeRow(p, number, a, prev);
            && r.prevHash == prev && r.tenant == a.tenant && r.number == number
            && r.ts == a.ts && r.machine == a.machine && r.event == a.event && r.payload == a.payload
            && r.hash == p.sha(RowMessage(a.tenant, r))
            && r.sig == Sign(p.schemes, a.keys, RowMessage(a.tenant, r))
  {
  }

  /** In every run each stored row was inserted by some call, is numbered by its
      position, and its hash and its signature are over its own fields. */
  lemma {:induction false} RowMatchesItsCall(p: Primitives, calls: seq<Args>, steps: seq<Step>, states: seq<State>,
                                             n: nat, i: nat)
    returns (k: nat)
    requires IsRun(p, calls, steps, states) && n <= |steps| && i < |states[n].rows|
    ensures k < n && Writes(calls, steps[k], states[n].rows[i].tenant)
    ensures var r, a := states[n].rows[i], calls[steps[k].call];
            && |states[k].rows| == i
            && r.ts == a.ts && r.machine == a.machine && r.event == a.event && r.payload == a.payload
            && r == MakeRow(p, i + 1, calls[steps[k].call], r.prevHash)
            && r.hash == p.sha(RowMessage(r.tenant, r))
            && r.sig == Sign(p.schemes, calls[steps[k].call].keys, RowMessage(r.tenant, r))
  {
    RunStarts(p, calls, steps, states);
    var before := states[n - 1];
    StepTaken(p, calls, steps, states, n - 1);
    hide IsRun;
    if i < |before.rows| {
      hide MakeRow, LastHash, RowMessage;
      k := RowMatchesItsCall(p, calls, steps, states, n - 1, i);
    } else {
      k := n - 1;
      var c := steps[k].call;
      MadeRow(p, i + 1, calls[c], before.pending[c]);
      hide MakeRow, LastHash, RowMessage;
    }
  }

  /** So in every run, interleaved or not, no verifier reports a hash mismatch,
      and a key rejects a row only if it rejects its writer's signature. */
  lemma NeverAMismatch(p: Primitives, calls: seq<Args>, steps: seq<Step>, states: seq<State>, n: nat, i: nat,
                       prev: string, keys: AuditKeys)
    returns (k: nat)
    requires IsRun(p, calls, steps, states) && n <= |steps| && i < |states[n].rows|
    ensures k < n && Writes(calls, steps[k], states[n].rows[i].tenant)
    ensures var r, signer := states[n].rows[i], calls[steps[k].call].keys;
            var m := RowMessage(r.tenant, r);
            && ChainErrors(p, r.tenant, r, prev)
               == (if r.prevHash == prev then [] else [ChainBroken(r.number, prev, r.prevHash)])
            && SignatureErrors(p, r.tenant, r, keys)
               == (if Verify(p.schemes, keys, m, Sign(p.schemes, signer, m)) then [] else [SignatureFailed(r.number)])
  {
    hide Verify, Sign, RowMessage, MakeRow, Enabled, Next, IsRun;
    k := RowMatchesItsCall(p, calls, steps, states, n, i);
  }

  // --------------------------------------------- when a log verifies

  /** What a step does to one tenant's log. */
  lemma LogAfterStep(p: Primitives, calls: seq<Args>, s: State, step: Step, tenant: string)
    requires Enabled(calls, s, step)
    ensures RowsOf(Next(p, calls, s, step).rows, tenant)
         == RowsOf(s.rows, tenant)
            + if Writes(calls, step, tenant)
              then [MakeRow(p, |s.rows| + 1, calls[step.call], s.pending[step.call])] else []
  {
    if step.Insert? {
      var r := MakeRow(p, |s.rows| + 1, calls[step.call], s.pending[step.call]);
      assert r.tenant == calls[step.call].tenant;
      hide MakeRow;
      assert (s.rows + [r])[..|s.rows + [r]| - 1] == s.rows;
    }
  }

  predicate Verifiable(p: Primitives, rows: seq<Row>, tenant: string) {
    ChainReport(p, tenant, RowsOf(rows, tenant), ZERO_HASH) == []
  }

  /** One more row keeps a chain unbroken exactly when it continues it. */
  lemma OneMoreRow(p: Primitives, log: seq<Row>, number: nat, a: Args, prev: string)
    ensures ChainReport(p, a.tenant, log + [MakeRow(p, number, a, prev)], ZERO_HASH) == []
            <==> ChainReport(p, a.tenant, log, ZERO_HASH) == [] && prev == EndHash(log, ZERO_HASH)
  {
    var r := MakeRow(p, number, a, prev);
    MadeRow(p, number, a, prev);
    hide MakeRow, RowMessage;
    AuditTamper.ChainConcat(p, a.tenant, log, [r], ZERO_HASH);
    var end := EndHash(log, ZERO_HASH);
    assert ChainReport(p, a.tenant, [r], end) == ChainErrors(p, a.tenant, r, end) + [];
  }

  /** Step `k`, if it writes for the tenant, uses what is still the last hash. */
  ghost predicate FreshAt(calls: seq<Args>, steps: seq<Step>, states: seq<State>, tenant: string, k: nat)
    requires k < |steps| && k < |states|
  {
    Writes(calls, steps[k], tenant) ==>
      && steps[k].call in states[k].pending
      && states[k].pending[steps[k].call] == LastHash(states[k].rows, tenant)
  }

  lemma VerifiableStep(p: Primitives, calls: seq<Args>, steps: seq<Step>, states: seq<State>, tenant: string, k: nat)
    requires IsRun(p, calls, steps, states) && k < |steps|
    ensures |states| == |steps| + 1
    ensures Verifiable(p, states[k + 1].rows, tenant)
            <==> Verifiable(p, states[k].rows, tenant) && FreshAt(calls, steps, states, tenant, k)
  {
    StepTaken(p, calls, steps, states, k);
    var s, step := states[k], steps[k];
    LogAfterStep(p, calls, s, step, tenant);
    if Writes(calls, step, tenant) {
      OneMoreRow(p, RowsOf(s.rows, tenant), |s.rows| + 1, calls[step.call], s.pending[step.call]);
    } else {
      assert RowsOf(states[k + 1].rows, tenant) == RowsOf(s.rows, tenant);
    }
    hide MakeRow, RowsOf, ChainReport, Next, EndHash, IsRun;
  }

  /** A tenant's log verifies at a point of a run exactly when every write for
      the tenant so far found the last hash unchanged since its read. What
      other tenants' calls do in between does not matter. */
  lemma {:induction false} VerifiableIffFresh(p: Primitives, calls: seq<Args>, steps: seq<Step>, states: seq<State>,
                                              tenant: string, n: nat)
    requires IsRun(p, calls, steps, states) && n <= |steps|
    ensures |states| == |steps| + 1
    ensures Verifiable(p, states[n].rows, tenant)
            <==> forall k: nat | k < n :: FreshAt(calls, steps, states, tenant, k)
  {
    hide *;
    RunStarts(p, calls, steps, states);
    if n > 0 {
      VerifiableIffFresh(p, calls, steps, states, tenant, n - 1);
      VerifiableStep(p, calls, steps, states, tenant, n - 1);
    } else {
      EmptyVerifies(p, tenant);
    }
  }

  lemma EmptyVerifies(p: Primitives, tenant: string)
    ensures Verifiable(p, [], tenant)
  {
  }

  // ------------------------------------------------- mutual exclusion

  /** Step `i` is the call's last read before step `j`. */
  predicate ReadsFor(steps: seq<Step>, i: nat, j: nat, call: nat)
    requires j <= |steps|
  {
    && i < j && steps[i] == Read(call)
    && forall k :: i < k < j ==> steps[k] != Read(call)
  }

  /** No call inserts for the tenant between another one's read and insert. */
  predicate Exclusive(calls: seq<Args>, steps: seq<Step>, tenant: string) {
    forall i: nat, j: nat, k: nat | i < k < j < |steps|
                                    && Writes(calls, steps[j], tenant) && ReadsFor(steps, i, j, steps[j].call) ::
      !Writes(calls, steps[k], tenant)
  }

  /** What a pending call holds is the last hash of its tenant when it read. */
  lemma {:induction false} PendingWasRead(p: Primitives, calls: seq<Args>, steps: seq<Step>, states: seq<State>,
                                          c: nat, n: nat)
    returns (i: nat)
    requires IsRun(p, calls, steps, states) && n <= |steps| && c in states[n].pending
    ensures c < |calls| && ReadsFor(steps, i, n, c)
    ensures states[n].pending[c] == LastHash(states[i].rows, calls[c].tenant)
  {
    RunStarts(p, calls, steps, states);
    StepTaken(p, calls, steps, states, n - 1);
    hide LastHash, MakeRow, IsRun;
    if steps[n - 1] == Read(c) {
      i := n - 1;
    } else {
      i := PendingWasRead(p, calls, steps, states, c, n - 1);
    }
  }

  /** Nobody writes for the tenant from step `i` on, before step `j`. */
  predicate Quiet(calls: seq<Args>, steps: seq<Step>, tenant: string, i: nat, j: nat)
    requires j <= |steps|
  {
    forall k :: i <= k < j ==> !Writes(calls, steps[k], tenant)
  }

  function LogAt(states: seq<State>, n: nat, tenant: string): seq<Row>
    requires n < |states|
  {
    RowsOf(states[n].rows, tenant)
  }

  /** A tenant's log only grows, and it grows exactly when somebody writes for
      the tenant. */
  lemma {:induction false} LogGrows(p: Primitives, calls: seq<Args>, steps: seq<Step>, states: seq<State>,
                                    tenant: string, i: nat, j: nat)
    requires IsRun(p, calls, steps, states) && i <= j <= |steps|
    ensures |states| == |steps| + 1
    ensures LogAt(states, i, tenant) <= LogAt(states, j, tenant)
    ensures LogAt(states, i, tenant) == LogAt(states, j, tenant) <==> Quiet(calls, steps, tenant, i, j)
  {
    hide *;
    RunStarts(p, calls, steps, states);
    if i < j {
      LogGrows(p, calls, steps, states, tenant, i, j - 1);
      LogGrowsByOne(p, calls, steps, states, tenant, j - 1);
      QuietStep(calls, steps, tenant, i, j);
      PrefixStep(LogAt(states, i, tenant), LogAt(states, j - 1, tenant), LogAt(states, j, tenant));
    } else {
      QuietHere(calls, steps, tenant, i);
    }
  }

  lemma QuietHere(calls: seq<Args>, steps: seq<Step>, tenant: string, i: nat)
    requires i <= |steps|
    ensures Quiet(calls, steps, tenant, i, i)
  {
  }

  lemma QuietStep(calls: seq<Args>, steps: seq<Step>, tenant: string, i: nat, j: nat)
    requires i < j <= |steps|
    ensures Quiet(calls, steps, tenant, i, j)
            <==> Quiet(calls, steps, tenant, i, j - 1) && !Writes(calls, steps[j - 1], tenant)
  {
  }

  lemma LogGrowsByOne(p: Primitives, calls: seq<Args>, steps: seq<Step>, states: seq<State>, tenant: string, k: nat)
    requires IsRun(p, calls, steps, states) && k < |steps|
    ensures |states| == |steps| + 1
    ensures var before, after := LogAt(states, k, tenant), LogAt(states, k + 1, tenant);
            if Writes(calls, steps[k], tenant) then before < after else before == after
  {
    StepTaken(p, calls, steps, states, k);
    LogAfterStep(p, calls, states[k], steps[k], tenant);
    hide RowsOf, MakeRow, Next, IsRun, Enabled;
  }

  lemma PrefixStep<T>(a: seq<T>, b: seq<T>, c: seq<T>)
    requires a <= b <= c
    ensures a <= c && (a == c <==> a == b == c)
  {
    assert c[..|a|] == b[..|a|];
  }

  /** If no insert for a tenant falls between another call's read and insert for
      the same tenant, that tenant's log verifies, however the calls of
      different tenants interleave. */
  lemma ExclusiveIsVerifiable(p: Primitives, calls: seq<Args>, steps: seq<Step>, states: seq<State>, tenant: string)
    requires IsRun(p, calls, steps, states)
    requires Exclusive(calls, steps, tenant)
    ensures Verifiable(p, states[|steps|].rows, tenant)
  {
    forall k: nat | k < |steps|
      ensures FreshAt(calls, steps, states, tenant, k)
    {
      if Writes(calls, steps[k], tenant) {
        StepTaken(p, calls, steps, states, k);
        var i := PendingWasRead(p, calls, steps, states, steps[k].call, k);
        LogGrows(p, calls, steps, states, tenant, i, k);
        hide RowsOf, IsRun, Next;
      }
    }
    VerifiableIffFresh(p, calls, steps, states, tenant, |steps|);
  }

  /** No two of the tenant's hashes are equal, nor equal to the initial one. */
  predicate DistinctHashes(log: seq<Row>) {
    && (forall i :: 0 <= i < |log| ==> log[i].hash != ZERO_HASH)
    && forall i, j :: 0 <= i < j < |log| ==> log[i].hash != log[j].hash
  }

  lemma DifferentEnds(log: seq<Row>, a: seq<Row>, b: seq<Row>)
    requires DistinctHashes(log) && a < b <= log
    ensures EndHash(a, ZERO_HASH) != EndHash(b, ZERO_HASH)
  {
    assert b[|b| - 1] == log[|b| - 1];
    if a != [] {
      assert a[|a| - 1] == log[|a| - 1];
    }
  }

  /** And only then: when the tenant's hashes are distinct, its log verifies
      exactly if its calls did not overlap in that way. */
  lemma VerifiableIffExclusive(p: Primitives, calls: seq<Args>, steps: seq<Step>, states: seq<State>, tenant: string)
    requires IsRun(p, calls, steps, states)
    requires DistinctHashes(RowsOf(states[|steps|].rows, tenant))
    ensures Verifiable(p, states[|steps|].rows, tenant) <==> Exclusive(calls, steps, tenant)
  {
    if Exclusive(calls, steps, tenant) {
      ExclusiveIsVerifiable(p, calls, steps, states, tenant);
    } else {
      var i: nat, j: nat, k: nat :| i < k < j < |steps| && Writes(calls, steps[j], tenant)
                                    && ReadsFor(steps, i, j, steps[j].call) && Writes(calls, steps[k], tenant);
      OverlapIsStale(p, calls, steps, states, tenant, i, j, k);
      VerifiableIffFresh(p, calls, steps, states, tenant, |steps|);
    }
  }

  lemma OverlapIsStale(p: Primitives, calls: seq<Args>, steps: seq<Step>, states: seq<State>, tenant: string,
                       i: nat, j: nat, k: nat)
    requires IsRun(p, calls, steps, states)
    requires DistinctHashes(RowsOf(states[|steps|].rows, tenant))
    requires i < k < j < |steps| && Writes(calls, steps[j], tenant)
    requires ReadsFor(steps, i, j, steps[j].call) && Writes(calls, steps[k], tenant)
    ensures !FreshAt(calls, steps, states, tenant, j)
  {
    StepTaken(p, calls, steps, states, j);
    hide RowsOf, Next, MakeRow, DistinctHashes, IsRun;
    var i' := PendingWasRead(p, calls, steps, states, steps[j].call, j);
    assert i' == i;
    LogGrows(p, calls, steps, states, tenant, i, j);
    LogGrows(p, calls, steps, states, tenant, j, |steps|);
    DifferentEnds(LogAt(states, |steps|, tenant), LogAt(states, i, tenant), LogAt(states, j, tenant));
  }

  /** The race: two calls of one tenant that both read before either inserts.
      Every row is sound on its own, and every verifier reports the second one
      as a break. */
  lemma RaceBreaksTheChain(p: Primitives, a: Args, b: Args, states: seq<State>)
    requires a.tenant == b.tenant
    requires IsRun(p, [a, b], [Read(0), Read(1), Insert(0), Insert(1)], states)
    requires p.sha(Message(a.ts, a.tenant, a.machine, a.event, a.payload, ZERO_HASH)) != ZERO_HASH
    ensures ChainReport(p, a.tenant, RowsOf(states[4].rows, a.tenant), ZERO_HASH)
         == [ChainBroken(2, p.sha(Message(a.ts, a.tenant, a.machine, a.event, a.payload, ZERO_HASH)), ZERO_HASH)]
  {
    var t := a.tenant;
    var x, y := MakeRow(p, 1, a, ZERO_HASH), MakeRow(p, 2, b, ZERO_HASH);
    RaceLog(p, a, b, states);
    MadeRow(p, 1, a, ZERO_HASH);
    MadeRow(p, 2, b, ZERO_HASH);
    OneMoreRow(p, [], 1, a, ZERO_HASH);
    AuditTamper.ChainConcat(p, t, [x], [y], ZERO_HASH);
    assert x.hash == p.sha(Message(a.ts, t, a.machine, a.event, a.payload, ZERO_HASH));
    hide Message, MakeRow, RowMessage, RowsOf, IsRun;
    assert [] + [x] == [x];
    assert ChainReport(p, t, [y], x.hash) == ChainErrors(p, t, y, x.hash) + [];
  }

  lemma RaceLog(p: Primitives, a: Args, b: Args, states: seq<State>)
    requires a.tenant == b.tenant
    requires IsRun(p, [a, b], [Read(0), Read(1), Insert(0), Insert(1)], states)
    ensures RowsOf(states[4].rows, a.tenant) == [MakeRow(p, 1, a, ZERO_HASH)] + [MakeRow(p, 2, b, ZERO_HASH)]
  {
    var calls, steps, t := [a, b], [Read(0), Read(1), Insert(0), Insert(1)], a.tenant;
    assert LastHash([], t) == ZERO_HASH;
    assert RowsOf([], t) == [];
    RunStarts(p, calls, steps, states);
    StepTaken(p, calls, steps, states, 0);
    StepTaken(p, calls, steps, states, 1);
    StepTaken(p, calls, steps, states, 2);
    StepTaken(p, calls, steps, states, 3);
    LogAfterStep(p, calls, states[2], steps[2], t);
    LogAfterStep(p, calls, states[3], steps[3], t);
    hide LastHash, RowsOf, MakeRow, IsRun;
    assert states[1] == State([], map[0 := ZERO_HASH]);
    assert states[2] == State([], map[0 := ZERO_HASH, 1 := ZERO_HASH]);
    assert states[3].rows == [MakeRow(p, 1, a, ZERO_HASH)];
    assert states[3].pending[1] == ZERO_HASH;
  }
}
