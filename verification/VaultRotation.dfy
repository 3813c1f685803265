/** Rotations in two database steps (gateway/src/routes/credentials.rs): a lookup
    of the credential's tenant and name, and an update by id that does not tell
    whether it found the row. The steps of overlapping requests interleave. */
module VaultRotation {
  import opened Prelude
  import opened Vault

  /** A call of `rotate_credential`, with the nonce that it draws. */
  datatype Rotation = Rotation(id: string, value: Bytes, nonce: Bytes)

  /** A request served in one step, or a step of a rotation named by its index. */
  datatype Step = Ask(request: Request) | Look(call: nat) | Write(call: nat)

  /** The table, and the rows found by the lookups that wait for their update. */
  datatype State<S> = State(rows: seq<Row<S>>, looked: map<nat, Row<S>>)

  predicate Enabled<S>(calls: seq<Rotation>, s: State<S>, step: Step) {
    match step
    case Ask(_) => true
    case Look(c) => c < |calls|
    case Write(c) => c < |calls| && c in s.looked
  }

  function Next<S>(codec: Codec<S>, tenants: set<string>, calls: seq<Rotation>, s: State<S>, step: Step): State<S>
    requires Enabled(calls, s, step)
  {
    match step
    case Ask(q) => s.(rows := Serve(codec, tenants, s.rows, q).0)
    case Look(c) =>
      var row := RowAt(s.rows, calls[c].id);
      s.(looked := if row.Some? then s.looked[c := row.value] else s.looked - {c})
    case Write(c) =>
      State(Rewritten(codec, s.rows, calls[c].id, s.looked[c].tenant, calls[c].value, calls[c].nonce), s.looked - {c})
  }

  /** What a step answers; a lookup that finds the row does not answer yet. */
  function Answer<S>(codec: Codec<S>, tenants: set<string>, calls: seq<Rotation>, s: State<S>, step: Step)
    : Option<Response>
    requires Enabled(calls, s, step)
  {
    match step
    case Ask(q) => Some(Serve(codec, tenants, s.rows, q).1)
    case Look(c) => if RowAt(s.rows, calls[c].id).None? then Some(Failed(NOT_FOUND)) else None
    case Write(c) => Some(Rotated(calls[c].id, s.looked[c].name))
  }

  ghost predicate Takes<S>(codec: Codec<S>, tenants: set<string>, calls: seq<Rotation>, s: State<S>, step: Step,
                           s': State<S>)
  {
    Enabled(calls, s, step) && s' == Next(codec, tenants, calls, s, step)
  }

  /** The states that the steps go through. */
  ghost predicate IsRun<S>(codec: Codec<S>, tenants: set<string>, calls: seq<Rotation>, steps: seq<Step>,
                           states: seq<State<S>>)
  {
    && |states| == |steps| + 1
    && UniqueIds(states[0].rows) && states[0].looked == map[]
    && forall k: nat | k < |steps| :: Takes(codec, tenants, calls, states[k], steps[k], states[k + 1])
  }

  predicate Creates(step: Step, id: string) {
    step.Ask? && step.request.Create? && step.request.newId == id
  }

  predicate Deletes(step: Step, id: string) {
    step == Step.Ask(Delete(id))
  }

  /** A new id is never one that was in use before. */
  ghost predicate FreshIds<S>(steps: seq<Step>, rows: seq<Row<S>>) {
    forall k: nat, id | k < |steps| && Creates(steps[k], id) ::
      RowAt(rows, id).None? && forall j: nat | j < k :: !Creates(steps[j], id)
  }

  // ------------------------------------------------- one step, one id

  /** What a request does to the row under an id. */
  lemma RowAfterServe<S>(codec: Codec<S>, tenants: set<string>, rows: seq<Row<S>>, q: Request, id: string)
    requires UniqueIds(rows)
    ensures var (rows', r) := Serve(codec, tenants, rows, q);
            var before, after := RowAt(rows, id), RowAt(rows', id);
            && UniqueIds(rows')
            && (Creates(Step.Ask(q), id) || (before.None? ==> after.None?))
            && (q == Delete(id) ==> after.None?)
            && (before.Some? && q != Delete(id) ==> after.Some? && SameCredential(before.value, after.value))
  {
    hide ById, ByName, AdminAnswer, AgentAnswer, UniqueIds;
    match q
    case Create(tenant, name, kind, value, envVar, mountPath, newId, nonce) =>
      var r := Row(newId, tenant, name, kind, codec.encrypt(tenant, nonce, value), nonce, envVar, mountPath);
      UniqueIdsKept(rows, 0, r);
      if ById(rows, newId) == |rows| {
        RowAtAppended(rows, r, id);
      }
    case Delete(d) =>
      var i := ById(rows, d);
      if i < |rows| {
        UniqueIdsKept(rows, i, rows[i]);
        RowAtCut(rows, i, id);
      }
    case Rotate(r, value, nonce) =>
      var i := ById(rows, r);
      if i < |rows| {
        RowAfterRewrite(codec, rows, r, rows[i].tenant, value, nonce, id);
      }
    case _ =>
  }

  /** The columns that a rotation keeps. */
  predicate SameCredential<S>(a: Row<S>, b: Row<S>) {
    a.id == b.id && a.tenant == b.tenant && a.name == b.name
  }

  lemma RowAfterRewrite<S>(codec: Codec<S>, rows: seq<Row<S>>, id: string, tenant: string, value: Bytes, nonce: Bytes,
                           other: string)
    requires UniqueIds(rows)
    ensures var rows' := Rewritten(codec, rows, id, tenant, value, nonce);
            var before, after := RowAt(rows, other), RowAt(rows', other);
            && UniqueIds(rows')
            && (before.Some? <==> after.Some?)
            && (before.Some? ==> SameCredential(before.value, after.value))
            && (before.Some? && other == id ==>
                  after.value.stored == codec.encrypt(tenant, nonce, value) && after.value.nonce == nonce)
            && (other != id ==> after == before)
  {
    hide ById, UniqueIds;
    var i := ById(rows, id);
    if i < |rows| {
      var r := rows[i].(stored := codec.encrypt(tenant, nonce, value), nonce := nonce);
      UniqueIdsKept(rows, i, r);
      RowAtUpdated(rows, i, r, other);
    }
  }

  lemma StepTaken<S>(codec: Codec<S>, tenants: set<string>, calls: seq<Rotation>, steps: seq<Step>,
                     states: seq<State<S>>, k: nat)
    requires IsRun(codec, tenants, calls, steps, states) && k < |steps|
    ensures |states| == |steps| + 1
    ensures Enabled(calls, states[k], steps[k])
    ensures states[k + 1] == Next(codec, tenants, calls, states[k], steps[k])
  {
    hide Enabled, Next, UniqueIds;
    assert Takes(codec, tenants, calls, states[k], steps[k], states[k + 1]);
  }

  lemma RunStarts<S>(codec: Codec<S>, tenants: set<string>, calls: seq<Rotation>, steps: seq<Step>,
                     states: seq<State<S>>)
    requires IsRun(codec, tenants, calls, steps, states)
    ensures |states| == |steps| + 1 && UniqueIds(states[0].rows) && states[0].looked == map[]
  {
  }

  /** What any step does to the row under an id. */
  lemma RowAfterStep<S>(codec: Codec<S>, tenants: set<string>, calls: seq<Rotation>, s: State<S>, step: Step,
                        id: string)
    requires UniqueIds(s.rows) && Enabled(calls, s, step)
    ensures var s' := Next(codec, tenants, calls, s, step);
            var before, after := RowAt(s.rows, id), RowAt(s'.rows, id);
            && UniqueIds(s'.rows)
            && (Creates(step, id) || (before.None? ==> after.None?))
            && (Deletes(step, id) ==> after.None?)
            && (before.Some? && !Deletes(step, id) ==> after.Some? && SameCredential(before.value, after.value))
  {
    hide RowAt, UniqueIds, SameCredential, Rewritten, Serve;
    match step
    case Ask(q) => RowAfterServe(codec, tenants, s.rows, q, id);
    case Look(c) => SameAsItself(s.rows, id);
    case Write(c) =>
      RowAfterRewrite(codec, s.rows, calls[c].id, s.looked[c].tenant, calls[c].value, calls[c].nonce, id);
  }

  lemma SameAsItself<S>(rows: seq<Row<S>>, id: string)
    ensures RowAt(rows, id).Some? ==> SameCredential(RowAt(rows, id).value, RowAt(rows, id).value)
  {
  }

  lemma {:induction false} IdsStayUnique<S>(codec: Codec<S>, tenants: set<string>, calls: seq<Rotation>,
                                            steps: seq<Step>, states: seq<State<S>>, n: nat)
    requires IsRun(codec, tenants, calls, steps, states) && n <= |steps|
    ensures |states| == |steps| + 1
    ensures UniqueIds(states[n].rows)
  {
    hide *;
    RunStarts(codec, tenants, calls, steps, states);
    if n > 0 {
      IdsStayUnique(codec, tenants, calls, steps, states, n - 1);
      StepTaken(codec, tenants, calls, steps, states, n - 1);
      RowAfterStep(codec, tenants, calls, states[n - 1], steps[n - 1], "");
    }
  }

  /** A live id was there at the start or has been created. */
  lemma {:induction false} LiveWasCreated<S>(codec: Codec<S>, tenants: set<string>, calls: seq<Rotation>,
                                             steps: seq<Step>, states: seq<State<S>>, n: nat, id: string)
    requires IsRun(codec, tenants, calls, steps, states) && n <= |steps|
    ensures |states| == |steps| + 1
    ensures RowAt(states[n].rows, id).Some? ==>
              RowAt(states[0].rows, id).Some? || exists j: nat :: j < n && Creates(steps[j], id)
  {
    RunStarts(codec, tenants, calls, steps, states);
    hide *;
    if n > 0 {
      LiveWasCreated(codec, tenants, calls, steps, states, n - 1, id);
      IdsStayUnique(codec, tenants, calls, steps, states, n - 1);
      StepTaken(codec, tenants, calls, steps, states, n - 1);
      RowAfterStep(codec, tenants, calls, states[n - 1], steps[n - 1], id);
    }
  }

  lemma NeverCreatedAgain<S>(codec: Codec<S>, tenants: set<string>, calls: seq<Rotation>, steps: seq<Step>,
                             states: seq<State<S>>, i: nat, k: nat, id: string)
    requires IsRun(codec, tenants, calls, steps, states) && i <= k < |steps|
    requires |states| == |steps| + 1 && FreshIds(steps, states[0].rows) && RowAt(states[i].rows, id).Some?
    ensures !Creates(steps[k], id)
  {
    hide IsRun, RowAt, Creates;
    LiveWasCreated(codec, tenants, calls, steps, states, i, id);
  }

  predicate NoDelete(steps: seq<Step>, i: nat, j: nat, id: string)
    requires j <= |steps|
  {
    forall k: nat | i <= k < j :: !Deletes(steps[k], id)
  }

  /** A live credential stays, with its tenant and name, exactly until a delete. */
  lemma {:induction false} LiveUntilDeleted<S>(codec: Codec<S>, tenants: set<string>, calls: seq<Rotation>,
                                               steps: seq<Step>, states: seq<State<S>>, i: nat, j: nat, id: string)
    requires IsRun(codec, tenants, calls, steps, states) && i <= j <= |steps|
    requires |states| == |steps| + 1 && FreshIds(steps, states[0].rows) && RowAt(states[i].rows, id).Some?
    ensures RowAt(states[j].rows, id).Some? <==> NoDelete(steps, i, j, id)
    ensures RowAt(states[j].rows, id).Some? ==>
              SameCredential(RowAt(states[i].rows, id).value, RowAt(states[j].rows, id).value)
    decreases j
  {
    if i < j {
      hide IsRun, RowAt, FreshIds, UniqueIds, Enabled, Next, Creates, Deletes;
      LiveUntilDeleted(codec, tenants, calls, steps, states, i, j - 1, id);
      IdsStayUnique(codec, tenants, calls, steps, states, j - 1);
      StepTaken(codec, tenants, calls, steps, states, j - 1);
      RowAfterStep(codec, tenants, calls, states[j - 1], steps[j - 1], id);
      NeverCreatedAgain(codec, tenants, calls, steps, states, i, j - 1, id);
    } else {
      hide IsRun, FreshIds, UniqueIds;
      SameAsItself(states[i].rows, id);
    }
  }

  // ------------------------------------------- lookups and updates

  /** Step `i` is the call's last lookup before step `j`, and the call does not
      update in between. */
  predicate LooksFor(steps: seq<Step>, i: nat, j: nat, call: nat)
    requires j <= |steps|
  {
    && i < j && steps[i] == Look(call)
    && forall k: nat | i < k < j :: steps[k] != Look(call) && steps[k] != Write(call)
  }

  lemma HeldAfterStep<S>(codec: Codec<S>, tenants: set<string>, calls: seq<Rotation>, s: State<S>, step: Step, c: nat)
    requires Enabled(calls, s, step) && c in Next(codec, tenants, calls, s, step).looked
    ensures step == Look(c) ==> && c < |calls| && RowAt(s.rows, calls[c].id).Some?
                                && Next(codec, tenants, calls, s, step).looked[c] == RowAt(s.rows, calls[c].id).value
    ensures step != Look(c) ==> && step != Write(c) && c in s.looked
                                && Next(codec, tenants, calls, s, step).looked[c] == s.looked[c]
  {
    hide Serve, RowAt, Rewritten;
  }

  lemma LooksForNow(steps: seq<Step>, i: nat, c: nat)
    requires i < |steps| && steps[i] == Look(c)
    ensures LooksFor(steps, i, i + 1, c)
  {
  }

  lemma LooksForLonger(steps: seq<Step>, i: nat, n: nat, c: nat)
    requires 0 < n <= |steps| && LooksFor(steps, i, n - 1, c)
    requires steps[n - 1] != Look(c) && steps[n - 1] != Write(c)
    ensures LooksFor(steps, i, n, c)
  {
  }

  /** What a call holds, it found at its last lookup. */
  lemma {:induction false} HeldWasFound<S>(codec: Codec<S>, tenants: set<string>, calls: seq<Rotation>,
                                           steps: seq<Step>, states: seq<State<S>>, c: nat, n: nat) returns (i: nat)
    requires IsRun(codec, tenants, calls, steps, states) && n <= |steps|
    requires |states| == |steps| + 1 && c in states[n].looked
    ensures c < |calls| && LooksFor(steps, i, n, c)
    ensures RowAt(states[i].rows, calls[c].id) == Some(states[n].looked[c])
  {
    hide *;
    RunStarts(codec, tenants, calls, steps, states);
    StepTaken(codec, tenants, calls, steps, states, n - 1);
    HeldAfterStep(codec, tenants, calls, states[n - 1], steps[n - 1], c);
    if steps[n - 1] == Look(c) {
      i := n - 1;
      LooksForNow(steps, i, c);
    } else {
      i := HeldWasFound(codec, tenants, calls, steps, states, c, n - 1);
      LooksForLonger(steps, i, n, c);
    }
  }

  lemma LastLookIsOne(steps: seq<Step>, i: nat, i': nat, j: nat, c: nat)
    requires j <= |steps| && LooksFor(steps, i, j, c) && LooksFor(steps, i', j, c)
    ensures i == i'
  {
  }

  /** Under an update the call still holds what its lookup found; the table it
      leaves is the one that an uninterrupted rotation leaves at that moment. */
  lemma WriteIsRotate<S>(codec: Codec<S>, tenants: set<string>, calls: seq<Rotation>, steps: seq<Step>,
                         states: seq<State<S>>, j: nat) returns (i: nat)
    requires IsRun(codec, tenants, calls, steps, states) && j < |steps| && steps[j].Write?
    requires |states| == |steps| + 1 && FreshIds(steps, states[0].rows)
    ensures steps[j].call < |calls| && LooksFor(steps, i, j, steps[j].call)
    ensures var c := calls[steps[j].call];
            var found := RowAt(states[i].rows, c.id);
            var (rows, r) := Serve(codec, tenants, states[j].rows, Rotate(c.id, c.value, c.nonce));
            && found.Some?
            && states[j + 1].rows == rows
            && Enabled(calls, states[j], steps[j])
            && Answer(codec, tenants, calls, states[j], steps[j]) == Some(Rotated(c.id, found.value.name))
            && r == if NoDelete(steps, i, j, c.id) then Rotated(c.id, found.value.name) else Failed(NOT_FOUND)
  {
    var n := steps[j].call;
    StepTaken(codec, tenants, calls, steps, states, j);
    var c := calls[n];
    hide IsRun, FreshIds, LooksFor, NoDelete, UniqueIds;
    i := HeldWasFound(codec, tenants, calls, steps, states, n, j);
    assert i < j by { LookIsBefore(steps, i, j, n); }
    LiveUntilDeleted(codec, tenants, calls, steps, states, i, j, c.id);
    hide ById;
  }

  lemma LookIsBefore(steps: seq<Step>, i: nat, j: nat, c: nat)
    requires j <= |steps| && LooksFor(steps, i, j, c)
    ensures i < j
  {
  }

  /** The row under the id holds the call's value, written for its tenant. */
  ghost predicate Holds<S>(codec: Codec<S>, rows: seq<Row<S>>, c: Rotation) {
    var row := RowAt(rows, c.id);
    && row.Some?
    && row.value.stored == codec.encrypt(row.value.tenant, c.nonce, c.value) && row.value.nonce == c.nonce
  }

  /** A rotation always answers that it succeeded once its lookup did; its value
      is stored if and only if no delete of the credential falls between its
      lookup and its update. */
  lemma RotatedIsStoredIff<S>(codec: Codec<S>, tenants: set<string>, calls: seq<Rotation>, steps: seq<Step>,
                              states: seq<State<S>>, i: nat, j: nat)
    requires IsRun(codec, tenants, calls, steps, states) && j < |steps| && steps[j].Write?
    requires |states| == |steps| + 1 && FreshIds(steps, states[0].rows) && LooksFor(steps, i, j, steps[j].call)
    ensures steps[j].call < |calls| && Enabled(calls, states[j], steps[j])
    ensures var c := calls[steps[j].call];
            && RowAt(states[i].rows, c.id).Some?
            && Answer(codec, tenants, calls, states[j], steps[j])
               == Some(Rotated(c.id, RowAt(states[i].rows, c.id).value.name))
            && (Holds(codec, states[j + 1].rows, c) <==> NoDelete(steps, i, j, c.id))
  {
    hide IsRun, FreshIds, LooksFor, NoDelete, Serve, Answer, Enabled, RowAt, Next;
    var i' := WriteIsRotate(codec, tenants, calls, steps, states, j);
    LastLookIsOne(steps, i, i', j, steps[j].call);
    LookIsBefore(steps, i, j, steps[j].call);
    var c := calls[steps[j].call];
    IdsStayUnique(codec, tenants, calls, steps, states, j);
    LiveUntilDeleted(codec, tenants, calls, steps, states, i, j, c.id);
    RotateHolds(codec, tenants, states[j].rows, c);
  }

  /** The loss is real: a delete between the two steps of a rotation leaves no
      credential, and the rotation answers that it succeeded. */
  lemma DeleteLosesRotation<S>(codec: Codec<S>, tenants: set<string>, rows: seq<Row<S>>, c: Rotation)
    returns (steps: seq<Step>, states: seq<State<S>>)
    requires UniqueIds(rows) && RowAt(rows, c.id).Some?
    ensures IsRun(codec, tenants, [c], steps, states) && |steps| == 3 && states[0].rows == rows
    ensures steps[1] == Step.Ask(Delete(c.id)) && Enabled([c], states[2], steps[2])
    ensures Answer(codec, tenants, [c], states[2], steps[2]) == Some(Rotated(c.id, RowAt(rows, c.id).value.name))
    ensures RowAt(states[3].rows, c.id).None?
  {
    var row := RowAt(rows, c.id).value;
    var deletion := Delete(c.id);
    var gone := Serve(codec, tenants, rows, deletion).0;
    RowAfterServe(codec, tenants, rows, deletion, c.id);
    var after := Rewritten(codec, gone, c.id, row.tenant, c.value, c.nonce);
    RowAfterRewrite(codec, gone, c.id, row.tenant, c.value, c.nonce, c.id);
    steps := [Look(0), Step.Ask(deletion), Write(0)];
    states := [State(rows, map[]), State(rows, map[0 := row]), State(gone, map[0 := row]), State(after, map[])];
    hide RowAt, Serve, Rewritten, UniqueIds;
    assert map[0 := row] - {0} == map[];
    assert Takes(codec, tenants, [c], states[0], steps[0], states[1]);
    assert Takes(codec, tenants, [c], states[1], steps[1], states[2]);
    assert Takes(codec, tenants, [c], states[2], steps[2], states[3]);
  }

  lemma RotateHolds<S>(codec: Codec<S>, tenants: set<string>, rows: seq<Row<S>>, c: Rotation)
    requires UniqueIds(rows)
    ensures Holds(codec, Serve(codec, tenants, rows, Rotate(c.id, c.value, c.nonce)).0, c) <==> RowAt(rows, c.id).Some?
  {
    hide ById, UniqueIds, Rewritten;
    var i := ById(rows, c.id);
    if i < |rows| {
      RowAfterRewrite(codec, rows, c.id, rows[i].tenant, c.value, c.nonce, c.id);
    }
  }

  // ---------------------------------------------------- whole runs

  /** The same requests one after the other, each rotation at its update. */
  function Atomic(calls: seq<Rotation>, steps: seq<Step>): seq<Request>
    requires forall s :: s in steps && s.Write? ==> s.call < |calls|
  {
    if steps == [] then []
    else
      var front, last := steps[..|steps| - 1], steps[|steps| - 1];
      Atomic(calls, front)
      + match last
        case Ask(q) => [q]
        case Look(_) => []
        case Write(c) => [Rotate(calls[c].id, calls[c].value, calls[c].nonce)]
  }

  function Table<S>(codec: Codec<S>, tenants: set<string>, rows: seq<Row<S>>, requests: seq<Request>): seq<Row<S>> {
    if requests == [] then rows
    else Serve(codec, tenants, Table(codec, tenants, rows, requests[..|requests| - 1]), requests[|requests| - 1]).0
  }

  lemma TableSnoc<S>(codec: Codec<S>, tenants: set<string>, rows: seq<Row<S>>, requests: seq<Request>, q: Request)
    ensures Table(codec, tenants, rows, requests + [q])
         == Serve(codec, tenants, Table(codec, tenants, rows, requests), q).0
  {
    hide Serve;
    assert (requests + [q])[..|requests|] == requests;
  }

  /** In every interleaving the table is the one that uninterrupted requests
      leave, with each rotation at its update. */
  lemma {:induction false} InterleavedIsAtomic<S>(codec: Codec<S>, tenants: set<string>, calls: seq<Rotation>,
                                                  steps: seq<Step>, states: seq<State<S>>, n: nat)
    requires IsRun(codec, tenants, calls, steps, states) && n <= |steps|
    requires |states| == |steps| + 1 && FreshIds(steps, states[0].rows)
    ensures forall s :: s in steps[..n] && s.Write? ==> s.call < |calls|
    ensures states[n].rows == Table(codec, tenants, states[0].rows, Atomic(calls, steps[..n]))
  {
    hide IsRun, FreshIds, Serve, Table;
    if n == 0 {
      NothingServed(codec, tenants, states[0].rows);
    } else {
      InterleavedIsAtomic(codec, tenants, calls, steps, states, n - 1);
      StepTaken(codec, tenants, calls, steps, states, n - 1);
      assert steps[..n][..n - 1] == steps[..n - 1];
      assert steps[..n] == steps[..n - 1] + [steps[n - 1]];
      var requests := Atomic(calls, steps[..n - 1]);
      match steps[n - 1]
      case Ask(q) => TableSnoc(codec, tenants, states[0].rows, requests, q);
      case Look(_) => EmptyUnit(requests);
      case Write(c) =>
        var i := WriteIsRotate(codec, tenants, calls, steps, states, n - 1);
        TableSnoc(codec, tenants, states[0].rows, requests, Rotate(calls[c].id, calls[c].value, calls[c].nonce));
    }
  }

  lemma NothingServed<S>(codec: Codec<S>, tenants: set<string>, rows: seq<Row<S>>)
    ensures Table(codec, tenants, rows, []) == rows
  {
  }
}
