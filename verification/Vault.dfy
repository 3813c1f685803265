/** The credential vault: gateway/src/crypto/vault.rs and
    gateway/src/routes/credentials.rs. Values are the UTF-8 bytes of the
    request's strings. */
module Vault {
  import opened Prelude
  import Utf8

  /** HKDF of the audit secret with the tenant as salt, and AES-256-GCM under a
      key and a nonce. */
  datatype Library = Library(derive: (string, Bytes) -> Bytes,
                             seal: (Bytes, Bytes, Bytes) -> Bytes, open: (Bytes, Bytes, Bytes) -> Option<Bytes>)

  const NONCE_LEN := 12

  /** How a tenant's values are written to and read from the table, with their
      nonce. */
  datatype Codec<!S> = Codec(encrypt: (string, Bytes, Bytes) -> S, decrypt: (string, Bytes, S) -> Option<Bytes>)

  /** `derive_tenant_key` with `encrypt` and `decrypt`. */
  function Encrypted(lib: Library, secret: Bytes): Codec<Bytes> {
    Codec((tenant, nonce, value) => lib.seal(lib.derive(tenant, secret), nonce, value),
          (tenant, nonce, stored) =>
            if |nonce| != NONCE_LEN then None else lib.open(lib.derive(tenant, secret), nonce, stored))
  }

  /** A table that keeps its values in the clear. */
  const PLAIN: Codec<Bytes> := Codec((tenant, nonce, value) => value, (tenant, nonce, stored) => Some(stored))

  /** A value in the clear, with the secret in use when it was written. */
  datatype Locked = Locked(value: Bytes, under: Bytes)

  /** A table in the clear that gives a value out only while the secret it was
      written under is in use. */
  function Locks(secret: Bytes): Codec<Locked> {
    Codec((tenant, nonce, value) => Locked(value, secret),
          (tenant, nonce, stored: Locked) => if stored.under == secret then Some(stored.value) else None)
  }

  /** A row of agent_credentials. */
  datatype Row<S> = Row(id: string, tenant: string, name: string, kind: string, stored: S, nonce: Bytes,
                        envVar: Option<string>, mountPath: Option<string>)

  /** A request, with the random values that serving it draws. For an agent's
      read: the tenant of its token and that of its machine, where they exist. */
  datatype Request =
    | Create(tenant: string, name: string, kind: string, value: Bytes, envVar: Option<string>,
             mountPath: Option<string>, newId: string, nonce: Bytes)
    | Get(id: string)
    | Delete(id: string)
    | Rotate(id: string, value: Bytes, nonce: Bytes)
    | AgentGet(tokenTenant: Option<string>, machineTenant: Option<string>, name: string)

  datatype Response =
    | Created(id: string, name: string, kind: string)
    | Got(id: string, name: string, kind: string, value: Bytes, envVar: Option<string>, mountPath: Option<string>)
    | Deleted
    | Rotated(id: string, name: string)
    | AgentGot(name: string, kind: string, value: Bytes, envVar: Option<string>, mountPath: Option<string>)
    | Failed(status: nat)

  const UNAUTHORIZED := 401
  const FORBIDDEN := 403
  const NOT_FOUND := 404
  const CONFLICT := 409
  const INTERNAL := 500

  function ById<S>(rows: seq<Row<S>>, id: string): (i: nat)
    ensures i <= |rows|
    ensures i < |rows| ==> rows[i].id == id
    ensures forall j :: 0 <= j < i ==> rows[j].id != id
  {
    if rows == [] then 0 else if rows[0].id == id then 0 else 1 + ById(rows[1..], id)
  }

  function ByName<S>(rows: seq<Row<S>>, tenant: string, name: string): (i: nat)
    ensures i <= |rows|
    ensures i < |rows| ==> rows[i].tenant == tenant && rows[i].name == name
    ensures forall j :: 0 <= j < i ==> rows[j].tenant != tenant || rows[j].name != name
  {
    if rows == [] then 0
    else if rows[0].tenant == tenant && rows[0].name == name then 0
    else 1 + ByName(rows[1..], tenant, name)
  }

  function RowAt<S>(rows: seq<Row<S>>, id: string): Option<Row<S>> {
    var i := ById(rows, id);
    if i == |rows| then None else Some(rows[i])
  }

  /** The table with another value under an id; nothing happens without a row. */
  function Rewritten<S>(codec: Codec<S>, rows: seq<Row<S>>, id: string, tenant: string, value: Bytes, nonce: Bytes)
    : seq<Row<S>>
  {
    var i := ById(rows, id);
    if i == |rows| then rows
    else rows[i := rows[i].(stored := codec.encrypt(tenant, nonce, value), nonce := nonce)]
  }

  /** The decrypted value as a string. */
  function Value<S>(codec: Codec<S>, r: Row<S>): Option<Bytes> {
    var plaintext := codec.decrypt(r.tenant, r.nonce, r.stored);
    if plaintext.Some? && Utf8.Valid(plaintext.value) then plaintext else None
  }

  /** The answer that shows a row to the admin or to an agent. */
  function Shown<S>(codec: Codec<S>, r: Row<S>, agent: bool): Response {
    var value := Value(codec, r);
    if value.None? then Failed(INTERNAL)
    else if agent then AgentGot(r.name, r.kind, value.value, r.envVar, r.mountPath)
    else Got(r.id, r.name, r.kind, value.value, r.envVar, r.mountPath)
  }

  function AdminAnswer<S>(codec: Codec<S>, rows: seq<Row<S>>, id: string): Response {
    var i := ById(rows, id);
    if i == |rows| then Failed(NOT_FOUND) else Shown(codec, rows[i], false)
  }

  function AgentAnswer<S>(codec: Codec<S>, rows: seq<Row<S>>, tokenTenant: Option<string>,
                          machineTenant: Option<string>, name: string): Response {
    if tokenTenant.None? then Failed(UNAUTHORIZED)
    else if machineTenant.None? then Failed(NOT_FOUND)
    else if machineTenant != tokenTenant then Failed(FORBIDDEN)
    else
      var i := ByName(rows, machineTenant.value, name);
      if i == |rows| then Failed(NOT_FOUND) else Shown(codec, rows[i], true)
  }

  /** The table after a request, and the answer. */
  function Serve<S>(codec: Codec<S>, tenants: set<string>, rows: seq<Row<S>>, request: Request)
    : (seq<Row<S>>, Response)
  {
    match request
    case Create(tenant, name, kind, value, envVar, mountPath, newId, nonce) =>
      if ById(rows, newId) < |rows| then (rows, Failed(INTERNAL))
      else if ByName(rows, tenant, name) < |rows| then (rows, Failed(CONFLICT))
      else if tenant !in tenants then (rows, Failed(INTERNAL))
      else
        (rows + [Row(newId, tenant, name, kind, codec.encrypt(tenant, nonce, value), nonce, envVar, mountPath)],
         Created(newId, name, kind))
    case Get(id) => (rows, AdminAnswer(codec, rows, id))
    case Delete(id) =>
      var i := ById(rows, id);
      if i == |rows| then (rows, Failed(NOT_FOUND)) else (rows[..i] + rows[i + 1..], Deleted)
    case Rotate(id, value, nonce) =>
      var i := ById(rows, id);
      if i == |rows| then (rows, Failed(NOT_FOUND))
      else
        (Rewritten(codec, rows, id, rows[i].tenant, value, nonce), Rotated(id, rows[i].name))
    case AgentGet(tokenTenant, machineTenant, name) =>
      (rows, AgentAnswer(codec, rows, tokenTenant, machineTenant, name))
  }

  /** The gateway's handlers over its table. */
  class Store {
    const lib: Library
    const tenants: set<string>
    var secret: Bytes
    var rows: seq<Row<Bytes>>

    constructor (lib: Library, secret: Bytes, tenants: set<string>)
      ensures this.lib == lib && this.secret == secret && this.tenants == tenants && rows == []
    {
      this.lib, this.secret, this.tenants := lib, secret, tenants;
      rows := [];
    }

    /** A restart with other audit keys. */
    method ChangeSecret(newSecret: Bytes)
      modifies this
      ensures secret == newSecret && rows == old(rows)
    {
      secret := newSecret;
    }

    method CreateCredential(tenant: string, name: string, kind: string, value: Bytes, envVar: Option<string>,
                            mountPath: Option<string>, newId: string, nonce: Bytes) returns (r: Response)
      modifies this`rows
      ensures (rows, r) == Serve(Encrypted(lib, secret), tenants, old(rows),
                                 Create(tenant, name, kind, value, envVar, mountPath, newId, nonce))
    {
      var key := lib.derive(tenant, secret);
      var ciphertext := lib.seal(key, nonce, value);
      if ById(rows, newId) < |rows| {
        return Failed(INTERNAL);
      }
      if ByName(rows, tenant, name) < |rows| {
        return Failed(CONFLICT);
      }
      if tenant !in tenants {
        return Failed(INTERNAL);
      }
      rows := rows + [Row(newId, tenant, name, kind, ciphertext, nonce, envVar, mountPath)];
      r := Created(newId, name, kind);
    }

    method GetCredential(id: string) returns (r: Response)
      ensures (rows, r) == Serve(Encrypted(lib, secret), tenants, rows, Get(id))
    {
      var i := ById(rows, id);
      if i == |rows| {
        return Failed(NOT_FOUND);
      }
      var value := ReadValue(rows[i]);
      if value.None? {
        return Failed(INTERNAL);
      }
      r := Got(id, rows[i].name, rows[i].kind, value.value, rows[i].envVar, rows[i].mountPath);
    }

    method DeleteCredential(id: string) returns (r: Response)
      modifies this`rows
      ensures (rows, r) == Serve(Encrypted(lib, secret), tenants, old(rows), Delete(id))
    {
      var i := ById(rows, id);
      if i == |rows| {
        return Failed(NOT_FOUND);
      }
      rows := rows[..i] + rows[i + 1..];
      r := Deleted;
    }

    /** The lookup of a rotation: the row's tenant and name. */
    method LookUpRotation(id: string) returns (row: Option<Row<Bytes>>)
      ensures row == RowAt(rows, id)
    {
      var i := ById(rows, id);
      row := if i == |rows| then None else Some(rows[i]);
    }

    /** The update of a rotation, for the tenant that was looked up. */
    method WriteRotation(id: string, tenant: string, value: Bytes, nonce: Bytes)
      modifies this`rows
      ensures rows == Rewritten(Encrypted(lib, secret), old(rows), id, tenant, value, nonce)
    {
      var key := lib.derive(tenant, secret);
      var ciphertext := lib.seal(key, nonce, value);
      var i := ById(rows, id);
      if i < |rows| {
        rows := rows[i := rows[i].(stored := ciphertext, nonce := nonce)];
      }
    }

    /** A rotation that is not interrupted. */
    method RotateCredential(id: string, value: Bytes, nonce: Bytes) returns (r: Response)
      modifies this`rows
      ensures (rows, r) == Serve(Encrypted(lib, secret), tenants, old(rows), Rotate(id, value, nonce))
    {
      var row := LookUpRotation(id);
      if row.None? {
        return Failed(NOT_FOUND);
      }
      WriteRotation(id, row.value.tenant, value, nonce);
      r := Rotated(id, row.value.name);
    }

    method AgentGetCredential(tokenTenant: Option<string>, machineTenant: Option<string>, name: string)
      returns (r: Response)
      ensures (rows, r) == Serve(Encrypted(lib, secret), tenants, rows, AgentGet(tokenTenant, machineTenant, name))
    {
      if tokenTenant.None? {
        return Failed(UNAUTHORIZED);
      }
      if machineTenant.None? {
        return Failed(NOT_FOUND);
      }
      if machineTenant.value != tokenTenant.value {
        return Failed(FORBIDDEN);
      }
      var i := ByName(rows, machineTenant.value, name);
      if i == |rows| {
        return Failed(NOT_FOUND);
      }
      var value := ReadValue(rows[i]);
      if value.None? {
        return Failed(INTERNAL);
      }
      r := AgentGot(name, rows[i].kind, value.value, rows[i].envVar, rows[i].mountPath);
    }

    method ReadValue(row: Row<Bytes>) returns (value: Option<Bytes>)
      ensures value == Value(Encrypted(lib, secret), row)
    {
      if |row.nonce| != NONCE_LEN {
        return None;
      }
      value := lib.open(lib.derive(row.tenant, secret), row.nonce, row.stored);
      if value.Some? && !Utf8.Valid(value.value) {
        value := None;
      }
    }
  }

  // ------------------------------------------------------ rows by id

  predicate UniqueIds<S>(rows: seq<Row<S>>) {
    forall i, j :: 0 <= i < j < |rows| ==> rows[i].id != rows[j].id
  }

  lemma RowAtAppended<S>(rows: seq<Row<S>>, r: Row<S>, id: string)
    requires ById(rows, r.id) == |rows|
    ensures RowAt(rows + [r], id) == if r.id == id then Some(r) else RowAt(rows, id)
  {
    hide ById;
    var rows' := rows + [r];
    var i, j := ById(rows', id), ById(rows, id);
    assert rows'[|rows|] == r;
    assert j < |rows| ==> rows'[j] == rows[j];
    assert i < |rows| ==> rows'[i] == rows[i];
  }

  lemma RowAtCut<S>(rows: seq<Row<S>>, i: nat, id: string)
    requires UniqueIds(rows) && i < |rows|
    ensures RowAt(rows[..i] + rows[i + 1..], id) == if rows[i].id == id then None else RowAt(rows, id)
  {
    var rows' := rows[..i] + rows[i + 1..];
    var j, k := ById(rows', id), ById(rows, id);
    hide ById;
    assert forall l :: 0 <= l < |rows'| ==> rows'[l] == rows[if l < i then l else l + 1];
    if k < |rows| && k != i {
      assert rows'[if k < i then k else k - 1] == rows[k];
    }
  }

  lemma RowAtUpdated<S>(rows: seq<Row<S>>, i: nat, r: Row<S>, id: string)
    requires UniqueIds(rows) && i < |rows| && r.id == rows[i].id
    ensures RowAt(rows[i := r], id) == if r.id == id then Some(r) else RowAt(rows, id)
  {
    var rows' := rows[i := r];
    var j, k := ById(rows', id), ById(rows, id);
    hide ById;
    assert forall l :: 0 <= l < |rows'| && l != i ==> rows'[l] == rows[l];
    assert rows'[i] == r;
  }

  lemma UniqueIdsKept<S>(rows: seq<Row<S>>, i: nat, r: Row<S>)
    requires UniqueIds(rows) && i <= |rows|
    ensures ById(rows, r.id) == |rows| ==> UniqueIds(rows + [r])
    ensures i < |rows| ==> UniqueIds(rows[..i] + rows[i + 1..])
    ensures i < |rows| && r.id == rows[i].id ==> UniqueIds(rows[i := r])
  {
    if i < |rows| {
      var rows' := rows[..i] + rows[i + 1..];
      assert forall l :: 0 <= l < |rows'| ==> rows'[l] == rows[if l < i then l else l + 1];
    }
    hide ById;
  }

  // -------------------------------------------- one table for another

  /** The same rows with their values stored another way. */
  function Mapped<S, T>(f: (string, Bytes, S) -> T, rows: seq<Row<S>>): (mapped: seq<Row<T>>)
    ensures |mapped| == |rows|
    ensures forall i :: 0 <= i < |rows| ==> mapped[i] == MappedRow(f, rows[i])
  {
    if rows == [] then [] else [MappedRow(f, rows[0])] + Mapped(f, rows[1..])
  }

  function MappedRow<S, T>(f: (string, Bytes, S) -> T, r: Row<S>): Row<T> {
    Row(r.id, r.tenant, r.name, r.kind, f(r.tenant, r.nonce, r.stored), r.nonce, r.envVar, r.mountPath)
  }

  /** Storing through `f` what the first codec writes is what the second one
      writes, and then both read the same, for stored values of a kind. */
  ghost predicate Simulates<S(!new), T(!new)>(spec: Codec<S>, impl: Codec<T>, f: (string, Bytes, S) -> T,
                                              kind: S -> bool)
  {
    && (forall t, n, v :: kind(spec.encrypt(t, n, v)) && f(t, n, spec.encrypt(t, n, v)) == impl.encrypt(t, n, v))
    && (forall t, n, s | |n| == NONCE_LEN && kind(s) :: impl.decrypt(t, n, f(t, n, s)) == spec.decrypt(t, n, s))
  }

  predicate RowsAre<S>(rows: seq<Row<S>>, kind: S -> bool) {
    forall i :: 0 <= i < |rows| ==> |rows[i].nonce| == NONCE_LEN && kind(rows[i].stored)
  }

  /** Requests carry strings and 12-byte nonces. */
  predicate WellFormed(request: Request) {
    (request.Create? || request.Rotate?) ==> |request.nonce| == NONCE_LEN && Utf8.Valid(request.value)
  }

  lemma SameFound<S, T>(f: (string, Bytes, S) -> T, rows: seq<Row<S>>, id: string, tenant: string, name: string)
    ensures ById(Mapped(f, rows), id) == ById(rows, id)
    ensures ByName(Mapped(f, rows), tenant, name) == ByName(rows, tenant, name)
  {
    var mapped := Mapped(f, rows);
    var i, j := ById(mapped, id), ById(rows, id);
    var k, l := ByName(mapped, tenant, name), ByName(rows, tenant, name);
    hide ById, ByName, Mapped;
    assert i < |rows| ==> mapped[i] == MappedRow(f, rows[i]);
    assert j < |rows| ==> mapped[j] == MappedRow(f, rows[j]);
    assert k < |rows| ==> mapped[k] == MappedRow(f, rows[k]);
    assert l < |rows| ==> mapped[l] == MappedRow(f, rows[l]);
  }

  lemma SameShown<S(!new), T(!new)>(spec: Codec<S>, impl: Codec<T>, f: (string, Bytes, S) -> T, kind: S -> bool,
                        rows: seq<Row<S>>, i: nat, agent: bool)
    requires Simulates(spec, impl, f, kind) && RowsAre(rows, kind) && i < |rows|
    ensures Shown(impl, Mapped(f, rows)[i], agent) == Shown(spec, rows[i], agent)
  {
    hide Utf8.Valid, Mapped;
    var r := rows[i];
    assert Mapped(f, rows)[i] == MappedRow(f, r);
    assert impl.decrypt(r.tenant, r.nonce, f(r.tenant, r.nonce, r.stored)) == spec.decrypt(r.tenant, r.nonce, r.stored);
  }

  lemma MappedEdits<S, T>(f: (string, Bytes, S) -> T, rows: seq<Row<S>>, i: nat, r: Row<S>)
    requires i <= |rows|
    ensures Mapped(f, rows + [r]) == Mapped(f, rows) + [MappedRow(f, r)]
    ensures i < |rows| ==>
              && Mapped(f, rows[..i] + rows[i + 1..]) == Mapped(f, rows)[..i] + Mapped(f, rows)[i + 1..]
              && Mapped(f, rows[i := r]) == Mapped(f, rows)[i := MappedRow(f, r)]
  {
    hide MappedRow;
  }

  lemma RowsAreEdits<S>(rows: seq<Row<S>>, kind: S -> bool, i: nat, r: Row<S>)
    requires RowsAre(rows, kind) && i <= |rows|
    ensures |r.nonce| == NONCE_LEN && kind(r.stored) ==> RowsAre(rows + [r], kind)
    ensures i < |rows| ==> RowsAre(rows[..i] + rows[i + 1..], kind)
    ensures i < |rows| && |r.nonce| == NONCE_LEN && kind(r.stored) ==> RowsAre(rows[i := r], kind)
  {
  }

  /** The second codec's table answers as the first one's does, and stays its
      image. */
  ghost predicate ServesSame<S, T>(spec: Codec<S>, impl: Codec<T>, f: (string, Bytes, S) -> T, kind: S -> bool,
                                   tenants: set<string>, rows: seq<Row<S>>, request: Request)
  {
    var (rows', r') := Serve(impl, tenants, Mapped(f, rows), request);
    var (next, r) := Serve(spec, tenants, rows, request);
    r == r' && rows' == Mapped(f, next) && RowsAre(next, kind)
  }

  lemma CreatesSame<S(!new), T(!new)>(spec: Codec<S>, impl: Codec<T>, f: (string, Bytes, S) -> T, kind: S -> bool,
                          tenants: set<string>, rows: seq<Row<S>>, q: Request)
    requires Simulates(spec, impl, f, kind) && RowsAre(rows, kind) && WellFormed(q) && q.Create?
    ensures ServesSame(spec, impl, f, kind, tenants, rows, q)
  {
    hide Utf8.Valid, Mapped, RowsAre, ById, ByName;
    SameFound(f, rows, q.newId, q.tenant, q.name);
    var r := Row(q.newId, q.tenant, q.name, q.kind, spec.encrypt(q.tenant, q.nonce, q.value), q.nonce, q.envVar,
                 q.mountPath);
    MappedEdits(f, rows, 0, r);
    RowsAreEdits(rows, kind, 0, r);
  }

  lemma RotatesSame<S(!new), T(!new)>(spec: Codec<S>, impl: Codec<T>, f: (string, Bytes, S) -> T, kind: S -> bool,
                          tenants: set<string>, rows: seq<Row<S>>, q: Request)
    requires Simulates(spec, impl, f, kind) && RowsAre(rows, kind) && WellFormed(q) && q.Rotate?
    ensures ServesSame(spec, impl, f, kind, tenants, rows, q)
  {
    hide Utf8.Valid, RowsAre, ById, ByName;
    SameFound(f, rows, q.id, "", "");
    var i := ById(rows, q.id);
    if i < |rows| {
      assert Mapped(f, rows)[i] == MappedRow(f, rows[i]);
      hide Mapped;
      var r := rows[i].(stored := spec.encrypt(rows[i].tenant, q.nonce, q.value), nonce := q.nonce);
      MappedEdits(f, rows, i, r);
      RowsAreEdits(rows, kind, i, r);
    }
  }

  lemma DeletesSame<S, T>(spec: Codec<S>, impl: Codec<T>, f: (string, Bytes, S) -> T, kind: S -> bool,
                          tenants: set<string>, rows: seq<Row<S>>, id: string)
    requires RowsAre(rows, kind)
    ensures ServesSame(spec, impl, f, kind, tenants, rows, Delete(id))
  {
    hide Mapped, RowsAre, ById;
    SameFound(f, rows, id, "", "");
    var i := ById(rows, id);
    if i < |rows| {
      MappedEdits(f, rows, i, rows[i]);
      RowsAreEdits(rows, kind, i, rows[i]);
    }
  }

  lemma AdminSame<S(!new), T(!new)>(spec: Codec<S>, impl: Codec<T>, f: (string, Bytes, S) -> T, kind: S -> bool,
                        rows: seq<Row<S>>, id: string)
    requires Simulates(spec, impl, f, kind) && RowsAre(rows, kind)
    ensures AdminAnswer(impl, Mapped(f, rows), id) == AdminAnswer(spec, rows, id)
  {
    hide Mapped, Shown, ById, ByName, Simulates, RowsAre;
    SameFound(f, rows, id, "", "");
    var i := ById(rows, id);
    if i < |rows| {
      SameShown(spec, impl, f, kind, rows, i, false);
    }
  }

  lemma AgentSame<S(!new), T(!new)>(spec: Codec<S>, impl: Codec<T>, f: (string, Bytes, S) -> T, kind: S -> bool,
                        rows: seq<Row<S>>, token: Option<string>, machine: Option<string>, name: string)
    requires Simulates(spec, impl, f, kind) && RowsAre(rows, kind)
    ensures AgentAnswer(impl, Mapped(f, rows), token, machine, name) == AgentAnswer(spec, rows, token, machine, name)
  {
    hide Mapped, Shown, ById, ByName, Simulates, RowsAre;
    if machine.Some? {
      SameFound(f, rows, "", machine.value, name);
      var i := ByName(rows, machine.value, name);
      if i < |rows| {
        SameShown(spec, impl, f, kind, rows, i, true);
      }
    }
  }

  lemma ReadsSame<S(!new), T(!new)>(spec: Codec<S>, impl: Codec<T>, f: (string, Bytes, S) -> T, kind: S -> bool,
                        tenants: set<string>, rows: seq<Row<S>>, q: Request)
    requires Simulates(spec, impl, f, kind) && RowsAre(rows, kind) && (q.Get? || q.AgentGet?)
    ensures ServesSame(spec, impl, f, kind, tenants, rows, q)
  {
    hide Mapped, AdminAnswer, AgentAnswer, RowsAre, Simulates;
    if q.Get? {
      AdminSame(spec, impl, f, kind, rows, q.id);
    } else {
      AgentSame(spec, impl, f, kind, rows, q.tokenTenant, q.machineTenant, q.name);
    }
  }

  /** Each request is answered by both tables alike. */
  lemma ServeSame<S(!new), T(!new)>(spec: Codec<S>, impl: Codec<T>, f: (string, Bytes, S) -> T, kind: S -> bool,
                        tenants: set<string>, rows: seq<Row<S>>, q: Request)
    requires Simulates(spec, impl, f, kind) && RowsAre(rows, kind) && WellFormed(q)
    ensures ServesSame(spec, impl, f, kind, tenants, rows, q)
  {
    hide *;
    match q
    case Create(_, _, _, _, _, _, _, _) => CreatesSame(spec, impl, f, kind, tenants, rows, q);
    case Get(_) => ReadsSame(spec, impl, f, kind, tenants, rows, q);
    case Delete(id) => DeletesSame(spec, impl, f, kind, tenants, rows, id);
    case Rotate(_, _, _) => RotatesSame(spec, impl, f, kind, tenants, rows, q);
    case AgentGet(_, _, _) => ReadsSame(spec, impl, f, kind, tenants, rows, q);
  }

  // -------------------------------------------------------- whole runs

  /** A request, or a restart with other audit keys, which changes the secret in
      use. */
  datatype Step = Ask(request: Request) | Change(secret: Bytes)

  /** What was asked and answered, or the change. */
  datatype Event = Answered(request: Request, response: Response) | Changed(secret: Bytes)

  /** The answers of a run, with a codec for each secret. */
  function Run<S>(codec: Bytes -> Codec<S>, tenants: set<string>, rows: seq<Row<S>>, secret: Bytes, steps: seq<Step>)
    : (events: seq<Event>)
    ensures |events| == |steps|
    decreases |steps|
  {
    if steps == [] then []
    else
      match steps[0]
      case Change(other) => [Changed(other)] + Run(codec, tenants, rows, other, steps[1..])
      case Ask(q) =>
        var (rows', r) := Serve(codec(secret), tenants, rows, q);
        [Answered(q, r)] + Run(codec, tenants, rows', secret, steps[1..])
  }

  /** The table and the secret that a run leaves. */
  function After<S>(codec: Bytes -> Codec<S>, tenants: set<string>, rows: seq<Row<S>>, secret: Bytes, steps: seq<Step>)
    : (seq<Row<S>>, Bytes)
    decreases |steps|
  {
    if steps == [] then (rows, secret)
    else
      match steps[0]
      case Change(other) => After(codec, tenants, rows, other, steps[1..])
      case Ask(q) => After(codec, tenants, Serve(codec(secret), tenants, rows, q).0, secret, steps[1..])
  }

  function Vaults(lib: Library): Bytes -> Codec<Bytes> {
    secret => Encrypted(lib, secret)
  }

  /** The gateway serving one request after the other, with its restarts. */
  method ServeAll(store: Store, steps: seq<Step>) returns (events: seq<Event>)
    modifies store
    ensures events == Run(Vaults(store.lib), store.tenants, old(store.rows), old(store.secret), steps)
    ensures (store.rows, store.secret)
         == After(Vaults(store.lib), store.tenants, old(store.rows), old(store.secret), steps)
  {
    events := [];
    assert steps[0..] == steps;
    for i := 0 to |steps|
      invariant events + Run(Vaults(store.lib), store.tenants, store.rows, store.secret, steps[i..])
             == Run(Vaults(store.lib), store.tenants, old(store.rows), old(store.secret), steps)
      invariant After(Vaults(store.lib), store.tenants, store.rows, store.secret, steps[i..])
             == After(Vaults(store.lib), store.tenants, old(store.rows), old(store.secret), steps)
    {
      hide Serve, Encrypted;
      assert steps[i..][1..] == steps[i + 1..];
      ghost var before := events;
      match steps[i] {
        case Change(other) =>
          store.ChangeSecret(other);
          events := events + [Changed(other)];
        case Ask(q) =>
          var r := Dispatch(store, q);
          events := events + [Answered(q, r)];
      }
      Associative(before, [events[|before|]],
                  Run(Vaults(store.lib), store.tenants, store.rows, store.secret, steps[i + 1..]));
    }
    EmptyUnit(events);
  }

  method Dispatch(store: Store, q: Request) returns (r: Response)
    modifies store`rows
    ensures (store.rows, r) == Serve(Encrypted(store.lib, store.secret), store.tenants, old(store.rows), q)
  {
    hide Serve, Encrypted;
    match q
    case Create(tenant, name, kind, value, envVar, mountPath, newId, nonce) =>
      r := store.CreateCredential(tenant, name, kind, value, envVar, mountPath, newId, nonce);
    case Get(id) =>
      r := store.GetCredential(id);
    case Delete(id) =>
      r := store.DeleteCredential(id);
    case Rotate(id, value, nonce) =>
      r := store.RotateCredential(id, value, nonce);
    case AgentGet(tokenTenant, machineTenant, name) =>
      r := store.AgentGetCredential(tokenTenant, machineTenant, name);
  }

  predicate StepsAre(steps: seq<Step>, secrets: set<Bytes>) {
    forall s :: s in steps ==> if s.Ask? then WellFormed(s.request) else s.secret in secrets
  }

  lemma {:induction false} RunSame<S(!new), T(!new)>(spec: Bytes -> Codec<S>, impl: Bytes -> Codec<T>,
                                                     f: (string, Bytes, S) -> T, kind: S -> bool,
                                                     secrets: set<Bytes>, tenants: set<string>, rows: seq<Row<S>>,
                                                     secret: Bytes, steps: seq<Step>)
    requires forall s :: s in secrets ==> Simulates(spec(s), impl(s), f, kind)
    requires RowsAre(rows, kind) && secret in secrets && StepsAre(steps, secrets)
    ensures Run(impl, tenants, Mapped(f, rows), secret, steps) == Run(spec, tenants, rows, secret, steps)
    decreases |steps|
  {
    if steps != [] {
      assert steps[0] in steps;
      hide Serve, Mapped, WellFormed, RowsAre, Simulates;
      match steps[0]
      case Change(other) =>
        RunSame(spec, impl, f, kind, secrets, tenants, rows, other, steps[1..]);
      case Ask(q) =>
        ServeSame(spec(secret), impl(secret), f, kind, tenants, rows, q);
        RunSame(spec, impl, f, kind, secrets, tenants, Serve(spec(secret), tenants, rows, q).0, secret, steps[1..]);
    }
  }

  // ---------------------------------------------- encryption is invisible

  /** Decryption inverts encryption under the same key and nonce. */
  ghost predicate Opens(lib: Library) {
    forall k, n, v :: lib.open(k, n, lib.seal(k, n, v)) == Some(v)
  }

  /** What is sealed under one of these secrets does not open under another. */
  ghost predicate Apart(lib: Library, secrets: set<Bytes>) {
    forall s, s', t, n, v | s in secrets && s' in secrets && s != s' ::
      lib.open(lib.derive(t, s'), n, lib.seal(lib.derive(t, s), n, v)) == None
  }

  const LOCKS: Bytes -> Codec<Locked> := secret => Locks(secret)

  const PLAINS: Bytes -> Codec<Bytes> := secret => PLAIN

  /** Without a change of the secret, the vault answers over every run exactly as
      a table in the clear. */
  lemma VaultRefinesPlain(lib: Library, secret: Bytes, tenants: set<string>, steps: seq<Step>)
    requires Opens(lib) && StepsAre(steps, {secret})
    ensures Run(Vaults(lib), tenants, [], secret, steps) == Run(PLAINS, tenants, [], secret, steps)
  {
    var codec := Encrypted(lib, secret);
    var f: (string, Bytes, Bytes) -> Bytes := (t, n, v) => codec.encrypt(t, n, v);
    var any: Bytes -> bool := v => true;
    assert Simulates(PLAIN, codec, f, any);
    assert Mapped(f, []) == [];
    hide Simulates, Run, Mapped, Encrypted, PLAIN;
    RunSame(PLAINS, Vaults(lib), f, any, {secret}, tenants, [], secret, steps);
  }

  function Sealing(lib: Library): (string, Bytes, Locked) -> Bytes {
    (t, n, l: Locked) => Encrypted(lib, l.under).encrypt(t, n, l.value)
  }

  function Under(secrets: set<Bytes>): Locked -> bool {
    (l: Locked) => l.under in secrets
  }

  lemma LocksSimulate(lib: Library, secrets: set<Bytes>, secret: Bytes)
    requires Opens(lib) && Apart(lib, secrets) && secret in secrets
    ensures Simulates(Locks(secret), Encrypted(lib, secret), Sealing(lib), Under(secrets))
  {
    forall t: string, n: Bytes, s: Locked | |n| == NONCE_LEN && s.under in secrets
      ensures Encrypted(lib, secret).decrypt(t, n, Sealing(lib)(t, n, s)) == Locks(secret).decrypt(t, n, s)
    {
      var codec := Encrypted(lib, s.under);
      assert codec.encrypt(t, n, s.value) == lib.seal(lib.derive(t, s.under), n, s.value);
      assert Sealing(lib)(t, n, s) == codec.encrypt(t, n, s.value);
    }
  }

  /** With changes of the secret, the vault answers over every run exactly as a
      table in the clear that gives a value out only while the secret it was
      written under is in use. */
  lemma VaultRefinesLocked(lib: Library, secrets: set<Bytes>, secret: Bytes, tenants: set<string>, steps: seq<Step>)
    requires Opens(lib) && Apart(lib, secrets) && secret in secrets && StepsAre(steps, secrets)
    ensures Run(Vaults(lib), tenants, [], secret, steps) == Run(LOCKS, tenants, [], secret, steps)
  {
    forall s | s in secrets
      ensures Simulates(LOCKS(s), Vaults(lib)(s), Sealing(lib), Under(secrets))
    {
      LocksSimulate(lib, secrets, s);
    }
    assert Mapped(Sealing(lib), []) == [];
    assert RowsAre([], Under(secrets));
    hide Simulates, Run, Mapped, Encrypted, Locks, Opens, Apart, RowsAre;
    RunSame(LOCKS, Vaults(lib), Sealing(lib), Under(secrets), secrets, tenants, [], secret, steps);
  }
}
