/** What the vault's answers mean over a whole run: every read returns the last
    value written, while the audit secret it was written under is in use
    (gateway/src/routes/credentials.rs). */
module VaultHistory {
  import opened Prelude
  import opened Vault
  import Utf8

  type Plain = Row<Locked>

  /** What was written, and the secret in use then. */
  datatype Record = Record(tenant: string, name: string, kind: string, value: Bytes, under: Bytes,
                           envVar: Option<string>, mountPath: Option<string>)

  /** The secret in use after these events. */
  function InUse(events: seq<Event>, start: Bytes): Bytes {
    if events == [] then start
    else if events[|events| - 1].Changed? then events[|events| - 1].secret
    else InUse(events[..|events| - 1], start)
  }

  /** What was last written under an id and not deleted since. */
  function LastWritten(events: seq<Event>, start: Bytes, id: string): Option<Record> {
    if events == [] then None
    else
      var front, e := events[..|events| - 1], events[|events| - 1];
      var before := LastWritten(front, start, id);
      if e.Changed? then before
      else
        match e.request
        case Create(tenant, name, kind, value, envVar, mountPath, newId, _) =>
          if e.response.Created? && newId == id
          then Some(Record(tenant, name, kind, value, InUse(front, start), envVar, mountPath))
          else before
        case Rotate(rotated, value, _) =>
          if e.response.Rotated? && rotated == id && before.Some?
          then Some(before.value.(value := value, under := InUse(front, start)))
          else before
        case Delete(deleted) => if e.response.Deleted? && deleted == id then None else before
        case _ => before
  }

  predicate LiveAs(events: seq<Event>, start: Bytes, id: string, tenant: string, name: string) {
    var r := LastWritten(events, start, id);
    r.Some? && r.value.tenant == tenant && r.value.name == name
  }

  /** The answer that the history so far calls for: a read gives the last value
      written exactly if it was written under the secret now in use, and fails
      with 500 otherwise; everything else does not depend on the secret. */
  ghost predicate Explains(tenants: set<string>, events: seq<Event>, start: Bytes, q: Request, r: Response) {
    var now := InUse(events, start);
    match q
    case Get(id) =>
      (match LastWritten(events, start, id)
       case None => r == Failed(NOT_FOUND)
       case Some(x) =>
         r == if x.under == now then Got(id, x.name, x.kind, x.value, x.envVar, x.mountPath) else Failed(INTERNAL))
    case AgentGet(token, machine, name) =>
      if token.None? then r == Failed(UNAUTHORIZED)
      else if machine.None? then r == Failed(NOT_FOUND)
      else if machine != token then r == Failed(FORBIDDEN)
      else
        || (&& r == Failed(NOT_FOUND)
            && forall id :: !LiveAs(events, start, id, token.value, name))
        || (exists id :: && LiveAs(events, start, id, token.value, name)
                         && var x := LastWritten(events, start, id).value;
                            r == if x.under == now then AgentGot(name, x.kind, x.value, x.envVar, x.mountPath)
                                 else Failed(INTERNAL))
    case Create(tenant, name, kind, _, _, _, newId, _) =>
      if LastWritten(events, start, newId).Some? then r == Failed(INTERNAL)
      else if exists id :: LiveAs(events, start, id, tenant, name) then r == Failed(CONFLICT)
      else r == if tenant in tenants then Created(newId, name, kind) else Failed(INTERNAL)
    case Delete(id) => r == if LastWritten(events, start, id).Some? then Deleted else Failed(NOT_FOUND)
    case Rotate(id, _, _) =>
      (match LastWritten(events, start, id)
       case None => r == Failed(NOT_FOUND)
       case Some(x) => r == Rotated(id, x.name))
  }

  /** A name belongs to one live id of a tenant. */
  ghost predicate NamesAreUnique(events: seq<Event>, start: Bytes) {
    forall id, id', tenant, name ::
      LiveAs(events, start, id, tenant, name) && LiveAs(events, start, id', tenant, name) ==> id == id'
  }

  // ------------------------------------------- the table and the history

  function RecordOf(r: Plain): Record {
    Record(r.tenant, r.name, r.kind, r.stored.value, r.stored.under, r.envVar, r.mountPath)
  }

  function Lookup(plain: seq<Plain>, id: string): Option<Record> {
    var row := RowAt(plain, id);
    if row.Some? then Some(RecordOf(row.value)) else None
  }

  predicate UniqueNames(plain: seq<Plain>) {
    forall i, j :: 0 <= i < j < |plain| ==> plain[i].tenant != plain[j].tenant || plain[i].name != plain[j].name
  }

  predicate Texts(plain: seq<Plain>) {
    forall i :: 0 <= i < |plain| ==> Utf8.Valid(plain[i].stored.value)
  }

  /** The table holds exactly what was last written. */
  ghost predicate Agrees(plain: seq<Plain>, events: seq<Event>, start: Bytes) {
    && UniqueIds(plain) && UniqueNames(plain) && Texts(plain)
    && forall id :: Lookup(plain, id) == LastWritten(events, start, id)
  }

  lemma Found(plain: seq<Plain>, i: nat)
    requires UniqueIds(plain) && i < |plain|
    ensures ById(plain, plain[i].id) == i
    ensures Lookup(plain, plain[i].id) == Some(RecordOf(plain[i]))
  {
  }

  lemma ByNameIsLive(plain: seq<Plain>, events: seq<Event>, start: Bytes, tenant: string, name: string)
    requires Agrees(plain, events, start)
    ensures var i := ByName(plain, tenant, name);
            if i < |plain|
            then LiveAs(events, start, plain[i].id, tenant, name)
                 && LastWritten(events, start, plain[i].id) == Some(RecordOf(plain[i]))
            else forall id :: !LiveAs(events, start, id, tenant, name)
  {
    hide Texts;
    var i := ByName(plain, tenant, name);
    if i < |plain| {
      Found(plain, i);
      assert Lookup(plain, plain[i].id) == LastWritten(events, start, plain[i].id);
    } else {
      hide ByName;
      forall id
        ensures !LiveAs(events, start, id, tenant, name)
      {
        assert Lookup(plain, id) == LastWritten(events, start, id);
      }
    }
  }

  lemma AgreementIsUnique(plain: seq<Plain>, events: seq<Event>, start: Bytes)
    requires Agrees(plain, events, start)
    ensures NamesAreUnique(events, start)
  {
    forall id, id', tenant, name | LiveAs(events, start, id, tenant, name) && LiveAs(events, start, id', tenant, name)
      ensures id == id'
    {
      assert Lookup(plain, id) == LastWritten(events, start, id);
      assert Lookup(plain, id') == LastWritten(events, start, id');
      hide Agrees, LiveAs, Texts;
      assert ById(plain, id) == ById(plain, id');
    }
  }

  /** What a read answers about a record. */
  function Read(id: string, x: Record, now: Bytes, agent: bool): Response {
    if x.under != now then Failed(INTERNAL)
    else if agent then AgentGot(x.name, x.kind, x.value, x.envVar, x.mountPath)
    else Got(id, x.name, x.kind, x.value, x.envVar, x.mountPath)
  }

  lemma RowIsRead(plain: seq<Plain>, i: nat, now: Bytes, agent: bool)
    requires Texts(plain) && i < |plain|
    ensures Shown(Locks(now), plain[i], agent) == Read(plain[i].id, RecordOf(plain[i]), now, agent)
  {
    hide Utf8.Valid;
  }

  lemma GetExplained(tenants: set<string>, plain: seq<Plain>, events: seq<Event>, start: Bytes, id: string)
    requires Agrees(plain, events, start)
    ensures Explains(tenants, events, start, Get(id), AdminAnswer(Locks(InUse(events, start)), plain, id))
  {
    var i := ById(plain, id);
    assert Lookup(plain, id) == LastWritten(events, start, id);
    if i < |plain| {
      RowIsRead(plain, i, InUse(events, start), false);
    }
    hide Shown, Locks, Agrees;
  }

  lemma AgentGetExplained(tenants: set<string>, plain: seq<Plain>, events: seq<Event>, start: Bytes,
                          token: Option<string>, machine: Option<string>, name: string)
    requires Agrees(plain, events, start)
    ensures Explains(tenants, events, start, AgentGet(token, machine, name),
                     AgentAnswer(Locks(InUse(events, start)), plain, token, machine, name))
  {
    if machine.Some? {
      ByNameIsLive(plain, events, start, machine.value, name);
      var i := ByName(plain, machine.value, name);
      if i < |plain| {
        RowIsRead(plain, i, InUse(events, start), true);
      }
    }
    hide Shown, Locks, Agrees, LiveAs, InUse, LastWritten;
  }

  /** Every answer of the table is the one the history calls for. */
  lemma ServeExplained(tenants: set<string>, plain: seq<Plain>, events: seq<Event>, start: Bytes, q: Request)
    requires Agrees(plain, events, start)
    ensures Explains(tenants, events, start, q, Serve(Locks(InUse(events, start)), tenants, plain, q).1)
  {
    hide AdminAnswer, AgentAnswer;
    match q
    case Get(id) =>
      GetExplained(tenants, plain, events, start, id);
      hide Agrees, Explains;
    case AgentGet(token, machine, name) =>
      AgentGetExplained(tenants, plain, events, start, token, machine, name);
      hide Agrees, Explains;
    case Create(tenant, name, _, _, _, _, newId, _) =>
      assert Lookup(plain, newId) == LastWritten(events, start, newId);
      ByNameIsLive(plain, events, start, tenant, name);
      hide Locks, Agrees, LiveAs, InUse;
    case Delete(id) =>
      assert Lookup(plain, id) == LastWritten(events, start, id);
      hide Locks, Agrees, InUse;
    case Rotate(id, _, _) =>
      assert Lookup(plain, id) == LastWritten(events, start, id);
      hide Locks, Agrees, InUse;
  }

  lemma Snoc(events: seq<Event>, e: Event)
    ensures (events + [e])[..|events + [e]| - 1] == events
    ensures (events + [e])[|events + [e]| - 1] == e
  {
  }

  lemma UniqueAppended(plain: seq<Plain>, r: Plain)
    requires UniqueIds(plain) && UniqueNames(plain) && Texts(plain) && Utf8.Valid(r.stored.value)
    requires ById(plain, r.id) == |plain| && ByName(plain, r.tenant, r.name) == |plain|
    ensures UniqueIds(plain + [r]) && UniqueNames(plain + [r]) && Texts(plain + [r])
  {
    hide ById, ByName, Utf8.Valid;
  }

  lemma UniqueUpdated(plain: seq<Plain>, i: nat, r: Plain)
    requires UniqueIds(plain) && UniqueNames(plain) && Texts(plain) && i < |plain| && Utf8.Valid(r.stored.value)
    requires r.id == plain[i].id && r.tenant == plain[i].tenant && r.name == plain[i].name
    ensures UniqueIds(plain[i := r]) && UniqueNames(plain[i := r]) && Texts(plain[i := r])
  {
    hide Utf8.Valid;
  }

  lemma UniqueCut(plain: seq<Plain>, i: nat)
    requires UniqueIds(plain) && UniqueNames(plain) && Texts(plain) && i < |plain|
    ensures UniqueIds(plain[..i] + plain[i + 1..]) && UniqueNames(plain[..i] + plain[i + 1..])
    ensures Texts(plain[..i] + plain[i + 1..])
  {
    var rows := plain[..i] + plain[i + 1..];
    assert forall l :: 0 <= l < |rows| ==> rows[l] == plain[if l < i then l else l + 1];
    hide Utf8.Valid;
  }

  /** An event that writes nothing. */
  predicate Idle(e: Event) {
    e.Changed? || (!e.response.Created? && !e.response.Rotated? && !e.response.Deleted?)
  }

  lemma Unchanged(plain: seq<Plain>, events: seq<Event>, start: Bytes, e: Event)
    requires Agrees(plain, events, start) && Idle(e)
    ensures Agrees(plain, events + [e], start)
  {
    Snoc(events, e);
    hide Lookup, UniqueIds, UniqueNames, Texts, InUse;
    forall id
      ensures Lookup(plain, id) == LastWritten(events + [e], start, id)
    {
      assert Lookup(plain, id) == LastWritten(events, start, id);
    }
  }

  /** Serving the request keeps the table and the history in agreement. */
  ghost predicate StaysAgreed(tenants: set<string>, plain: seq<Plain>, events: seq<Event>, start: Bytes, q: Request) {
    var (plain', r) := Serve(Locks(InUse(events, start)), tenants, plain, q);
    Agrees(plain', events + [Answered(q, r)], start)
  }

  lemma AgreesCreate(tenants: set<string>, plain: seq<Plain>, events: seq<Event>, start: Bytes, q: Request)
    requires Agrees(plain, events, start) && WellFormed(q) && q.Create?
    ensures StaysAgreed(tenants, plain, events, start, q)
  {
    var now := InUse(events, start);
    var (plain', r) := Serve(Locks(now), tenants, plain, q);
    var row := Row(q.newId, q.tenant, q.name, q.kind, Locked(q.value, now), q.nonce, q.envVar, q.mountPath);
    Snoc(events, Answered(q, r));
    hide Utf8.Valid, Texts, UniqueIds, UniqueNames, InUse;
    if r.Created? {
      assert plain' == plain + [row];
      UniqueAppended(plain, row);
      forall id
        ensures Lookup(plain', id) == LastWritten(events + [Answered(q, r)], start, id)
      {
        RowAtAppended(plain, row, id);
        hide Locks, Serve, Lookup;
        assert Lookup(plain, id) == LastWritten(events, start, id);
      }
    } else {
      Unchanged(plain, events, start, Answered(q, r));
    }
  }

  lemma AgreesDelete(tenants: set<string>, plain: seq<Plain>, events: seq<Event>, start: Bytes, id: string)
    requires Agrees(plain, events, start)
    ensures StaysAgreed(tenants, plain, events, start, Delete(id))
  {
    hide Locks, UniqueIds, UniqueNames, Texts, InUse;
    var (plain', r) := Serve(Locks(InUse(events, start)), tenants, plain, Delete(id));
    Snoc(events, Answered(Delete(id), r));
    var i := ById(plain, id);
    if i < |plain| {
      UniqueCut(plain, i);
      forall x
        ensures Lookup(plain', x) == LastWritten(events + [Answered(Delete(id), r)], start, x)
      {
        RowAtCut(plain, i, x);
        assert Lookup(plain, x) == LastWritten(events, start, x);
      }
    } else {
      Unchanged(plain, events, start, Answered(Delete(id), r));
    }
  }

  lemma AgreesRotate(tenants: set<string>, plain: seq<Plain>, events: seq<Event>, start: Bytes, q: Request)
    requires Agrees(plain, events, start) && WellFormed(q) && q.Rotate?
    ensures StaysAgreed(tenants, plain, events, start, q)
  {
    var now := InUse(events, start);
    var (plain', r) := Serve(Locks(now), tenants, plain, q);
    Snoc(events, Answered(q, r));
    var i := ById(plain, q.id);
    hide Utf8.Valid, Texts, UniqueIds, UniqueNames, InUse;
    if i < |plain| {
      var row := plain[i].(stored := Locked(q.value, now), nonce := q.nonce);
      assert plain' == plain[i := row];
      UniqueUpdated(plain, i, row);
      assert Lookup(plain, q.id) == Some(RecordOf(plain[i]));
      forall id
        ensures Lookup(plain', id) == LastWritten(events + [Answered(q, r)], start, id)
      {
        RowAtUpdated(plain, i, row, id);
        hide Locks, Serve, Lookup;
        assert Lookup(plain, id) == LastWritten(events, start, id);
      }
    } else {
      Unchanged(plain, events, start, Answered(q, r));
    }
  }

  lemma AgreesStep(tenants: set<string>, plain: seq<Plain>, events: seq<Event>, start: Bytes, q: Request)
    requires Agrees(plain, events, start) && WellFormed(q)
    ensures StaysAgreed(tenants, plain, events, start, q)
  {
    match q
    case Create(_, _, _, _, _, _, _, _) => AgreesCreate(tenants, plain, events, start, q);
    case Delete(id) => AgreesDelete(tenants, plain, events, start, id);
    case Rotate(_, _, _) => AgreesRotate(tenants, plain, events, start, q);
    case _ =>
      var (plain', r) := Serve(Locks(InUse(events, start)), tenants, plain, q);
      assert plain' == plain && (r.Failed? || r.Got? || r.AgentGot?);
      hide Agrees, Serve, Locks;
      Unchanged(plain, events, start, Answered(q, r));
  }

  // ---------------------------------------------------- whole runs

  /** A request of a run is answered as the events before it call for. */
  ghost predicate Explained(tenants: set<string>, events: seq<Event>, start: Bytes, n: nat, q: Request)
    requires n < |events|
  {
    && events[n].Answered? && events[n].request == q
    && Explains(tenants, events[..n], start, q, events[n].response)
    && NamesAreUnique(events[..n], start)
  }

  /** The table and the event after one step. */
  function Stepped(tenants: set<string>, plain: seq<Plain>, secret: Bytes, s: Step): (seq<Plain>, Event) {
    if s.Change? then (plain, Changed(s.secret))
    else
      var (plain', r) := Serve(Locks(secret), tenants, plain, s.request);
      (plain', Answered(s.request, r))
  }

  lemma StepAgrees(tenants: set<string>, plain: seq<Plain>, before: seq<Event>, start: Bytes, s: Step)
    requires Agrees(plain, before, start) && (s.Ask? ==> WellFormed(s.request))
    ensures var (plain', e) := Stepped(tenants, plain, InUse(before, start), s);
            Agrees(plain', before + [e], start)
  {
    hide Serve, WellFormed, Agrees;
    if s.Ask? {
      AgreesStep(tenants, plain, before, start, s.request);
    } else {
      Unchanged(plain, before, start, Changed(s.secret));
    }
  }

  lemma RunUnrolled(tenants: set<string>, plain: seq<Plain>, before: seq<Event>, start: Bytes, steps: seq<Step>)
    requires steps != []
    ensures var (plain', e) := Stepped(tenants, plain, InUse(before, start), steps[0]);
            Run(LOCKS, tenants, plain, InUse(before, start), steps)
            == [e] + Run(LOCKS, tenants, plain', InUse(before + [e], start), steps[1..])
  {
    hide Serve, Locks;
    Snoc(before, Stepped(tenants, plain, InUse(before, start), steps[0]).1);
  }

  lemma FirstExplained(tenants: set<string>, plain: seq<Plain>, before: seq<Event>, start: Bytes, q: Request,
                       rest: seq<Event>)
    requires Agrees(plain, before, start)
    ensures var e := Stepped(tenants, plain, InUse(before, start), Ask(q)).1;
            Explained(tenants, before + ([e] + rest), start, |before|, q)
  {
    var events := before + ([Stepped(tenants, plain, InUse(before, start), Ask(q)).1] + rest);
    ServeExplained(tenants, plain, before, start, q);
    AgreementIsUnique(plain, before, start);
    hide Agrees, Serve, Locks, Explains, NamesAreUnique;
    assert events[..|before|] == before;
  }

  lemma {:induction false} LockedRunExplained(tenants: set<string>, plain: seq<Plain>, before: seq<Event>,
                                              start: Bytes, steps: seq<Step>, secrets: set<Bytes>, n: nat)
    requires Agrees(plain, before, start) && StepsAre(steps, secrets) && n < |steps| && steps[n].Ask?
    ensures var events := before + Run(LOCKS, tenants, plain, InUse(before, start), steps);
            Explained(tenants, events, start, |before| + n, steps[n].request)
    decreases n
  {
    assert steps[0] in steps;
    RunUnrolled(tenants, plain, before, start, steps);
    var (plain', e) := Stepped(tenants, plain, InUse(before, start), steps[0]);
    var rest := Run(LOCKS, tenants, plain', InUse(before + [e], start), steps[1..]);
    hide Explained, WellFormed, Agrees, Stepped, Run, InUse;
    if n == 0 {
      FirstExplained(tenants, plain, before, start, steps[0].request, rest);
    } else {
      StepAgrees(tenants, plain, before, start, steps[0]);
      LockedRunExplained(tenants, plain', before + [e], start, steps[1..], secrets, n - 1);
      Associative(before, [e], rest);
    }
  }

  lemma EmptyAgrees(start: Bytes)
    ensures Agrees([], [], start) && InUse([], start) == start
  {
  }

  /** The vault over any run from the empty table, with any changes of the
      secret: each read returns the last value written for its id or for its
      (tenant, name) exactly if the secret it was written under is in use, and
      500 otherwise; a name is refused exactly while a row with it is live; an
      agent receives only a value stored for the tenant of its token. */
  lemma VaultRunExplained(lib: Library, secrets: set<Bytes>, secret: Bytes, tenants: set<string>, steps: seq<Step>,
                          n: nat)
    requires Opens(lib) && Apart(lib, secrets) && secret in secrets && StepsAre(steps, secrets)
    requires n < |steps| && steps[n].Ask?
    ensures Explained(tenants, Run(Vaults(lib), tenants, [], secret, steps), secret, n, steps[n].request)
  {
    hide *;
    EmptyAgrees(secret);
    VaultRefinesLocked(lib, secrets, secret, tenants, steps);
    LockedRunExplained(tenants, [], [], secret, steps, secrets, n);
    EmptyUnit(Run(LOCKS, tenants, [], secret, steps));
  }

  // --------------------------------------------- when a value comes back

  /** A create or a rotation of the id that was carried out. */
  predicate Writes(e: Event, id: string) {
    && e.Answered?
    && ((e.request.Create? && e.response.Created? && e.request.newId == id)
        || (e.request.Rotate? && e.response.Rotated? && e.request.id == id))
  }

  predicate Deletes(e: Event, id: string) {
    e.Answered? && e.request.Delete? && e.response.Deleted? && e.request.id == id
  }

  /** Event `n` is the last one before `m` that writes or deletes the id. */
  predicate LastWrite(events: seq<Event>, id: string, n: nat, m: nat) {
    && n < m <= |events| && Writes(events[n], id)
    && forall k :: n < k < m ==> !Writes(events[k], id) && !Deletes(events[k], id)
  }

  lemma {:induction false} WritePersists(events: seq<Event>, start: Bytes, id: string, n: nat, m: nat)
    requires LastWrite(events, id, n, m)
    requires events[n].request.Rotate? ==> LastWritten(events[..n], start, id).Some?
    ensures var x := LastWritten(events[..m], start, id);
            x.Some? && x.value.value == events[n].request.value && x.value.under == InUse(events[..n], start)
    decreases m
  {
    assert events[..m][..m - 1] == events[..m - 1];
    hide InUse;
    if n + 1 < m {
      assert !Writes(events[m - 1], id) && !Deletes(events[m - 1], id);
      WritePersists(events, start, id, n, m - 1);
    }
  }

  lemma RotatedWasLive(tenants: set<string>, events: seq<Event>, start: Bytes, id: string, n: nat)
    requires n < |events| && Writes(events[n], id)
    requires Explained(tenants, events, start, n, events[n].request)
    ensures events[n].request.Rotate? ==> LastWritten(events[..n], start, id).Some?
  {
    hide InUse, LastWritten, NamesAreUnique;
  }

  /** The events of the vault from the empty table. */
  function Served(lib: Library, secret: Bytes, tenants: set<string>, steps: seq<Step>): (events: seq<Event>)
    ensures |events| == |steps|
  {
    Run(Vaults(lib), tenants, [], secret, steps)
  }

  lemma EventsAreOfSteps(lib: Library, secret: Bytes, tenants: set<string>, rows: seq<Row<Bytes>>, steps: seq<Step>,
                         n: nat)
    requires n < |steps|
    ensures var e := Run(Vaults(lib), tenants, rows, secret, steps)[n];
            if e.Answered? then steps[n] == Ask(e.request) else steps[n] == Change(e.secret)
    decreases n
  {
    hide Serve, Vaults;
    if n > 0 {
      if steps[0].Ask? {
        EventsAreOfSteps(lib, secret, tenants, Serve(Vaults(lib)(secret), tenants, rows, steps[0].request).0,
                         steps[1..], n - 1);
      } else {
        EventsAreOfSteps(lib, steps[0].secret, tenants, rows, steps[1..], n - 1);
      }
    }
  }

  lemma WriteIsRemembered(lib: Library, secrets: set<Bytes>, secret: Bytes, tenants: set<string>, steps: seq<Step>,
                          id: string, n: nat, m: nat)
    requires Opens(lib) && Apart(lib, secrets) && secret in secrets && StepsAre(steps, secrets)
    requires m <= |steps| && LastWrite(Served(lib, secret, tenants, steps), id, n, m)
    ensures var events := Served(lib, secret, tenants, steps);
            var x := LastWritten(events[..m], secret, id);
            x.Some? && x.value.value == events[n].request.value && x.value.under == InUse(events[..n], secret)
  {
    var events := Served(lib, secret, tenants, steps);
    assert n < |steps| && Writes(events[n], id);
    EventsAreOfSteps(lib, secret, tenants, [], steps, n);
    hide InUse, LastWritten, Explained, Opens, Apart, StepsAre, Run;
    VaultRunExplained(lib, secrets, secret, tenants, steps, n);
    RotatedWasLive(tenants, events, secret, id, n);
    WritePersists(events, secret, id, n, m);
  }

  /** A read by id returns the value last written if and only if the secret it
      was written under is in use, and 500 otherwise. After a change of the
      secret a rotation of the credential therefore makes it readable again. */
  lemma WrittenIsReadIff(lib: Library, secrets: set<Bytes>, secret: Bytes, tenants: set<string>, steps: seq<Step>,
                         id: string, n: nat, m: nat)
    requires Opens(lib) && Apart(lib, secrets) && secret in secrets && StepsAre(steps, secrets)
    requires m < |steps| && steps[m] == Ask(Get(id))
    requires LastWrite(Served(lib, secret, tenants, steps), id, n, m)
    ensures var events := Served(lib, secret, tenants, steps);
            && events[m].Answered?
            && var r := events[m].response;
               if InUse(events[..m], secret) == InUse(events[..n], secret)
               then r.Got? && r.id == id && r.value == events[n].request.value
               else r == Failed(INTERNAL)
  {
    WriteIsRemembered(lib, secrets, secret, tenants, steps, id, n, m);
    hide Opens, Apart, StepsAre, LastWrite, Run, InUse, LastWritten, NamesAreUnique;
    VaultRunExplained(lib, secrets, secret, tenants, steps, m);
  }

  /** The same for an agent's read by the credential's tenant and name. */
  lemma WrittenIsReadByAgentIff(lib: Library, secrets: set<Bytes>, secret: Bytes, tenants: set<string>,
                                steps: seq<Step>, tenant: string, name: string, id: string, n: nat, m: nat)
    requires Opens(lib) && Apart(lib, secrets) && secret in secrets && StepsAre(steps, secrets)
    requires m < |steps| && steps[m] == Ask(AgentGet(Some(tenant), Some(tenant), name))
    requires LastWrite(Served(lib, secret, tenants, steps), id, n, m)
    requires LiveAs(Served(lib, secret, tenants, steps)[..m], secret, id, tenant, name)
    ensures var events := Served(lib, secret, tenants, steps);
            && events[m].Answered?
            && var r := events[m].response;
               if InUse(events[..m], secret) == InUse(events[..n], secret)
               then r.AgentGot? && r.name == name && r.value == events[n].request.value
               else r == Failed(INTERNAL)
  {
    WriteIsRemembered(lib, secrets, secret, tenants, steps, id, n, m);
    hide Opens, Apart, StepsAre, LastWrite, Run, InUse, LastWritten, LiveAs;
    VaultRunExplained(lib, secrets, secret, tenants, steps, m);
  }
}
