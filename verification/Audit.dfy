/** The audit log: gateway/src/audit/log.rs, gateway/src/audit/verify.rs, and
    the offline copy of the verifier in cli/src/main.rs. */
module Audit {
  import opened Prelude
  import opened HybridSig

  /** Library functions: SHA-256 of a string in hex, and the signature schemes. */
  datatype Primitives = Primitives(sha: string -> string, schemes: Schemes)

  datatype Row = Row(number: nat, tenant: string, ts: string, machine: string, event: string, payload: string,
                     prevHash: string, hash: string, sig: DualSignature, sevHash: Option<string>)

  const ZERO_HASH := "0000000000000000000000000000000000000000000000000000000000000000"

  function Message(ts: string, tenant: string, machine: string, event: string, payload: string, prevHash: string)
    : string
  {
    ts + "|" + tenant + "|" + machine + "|" + event + "|" + payload + "|" + prevHash
  }

  /** The message of a stored row, as the verifiers rebuild it. */
  function RowMessage(tenant: string, r: Row): string {
    Message(r.ts, tenant, r.machine, r.event, r.payload, r.prevHash)
  }

  // ------------------------------------------------------- verifiers

  datatype VerifyError =
    | ChainBroken(number: nat, expected: string, got: string)
    | HashMismatch(number: nat, stored: string, recomputed: string)
    | SignatureFailed(number: nat)

  function ChainErrors(p: Primitives, tenant: string, r: Row, prev: string): seq<VerifyError> {
    var recomputed := p.sha(RowMessage(tenant, r));
    (if r.prevHash != prev then [ChainBroken(r.number, prev, r.prevHash)] else [])
    + (if recomputed != r.hash then [HashMismatch(r.number, r.hash, recomputed)] else [])
  }

  function SignatureErrors(p: Primitives, tenant: string, r: Row, keys: AuditKeys): seq<VerifyError> {
    if Verify(p.schemes, keys, RowMessage(tenant, r), r.sig) then [] else [SignatureFailed(r.number)]
  }

  /** What the three checks find in these rows when the chain enters with
      `prev`. */
  function Report(p: Primitives, tenant: string, keys: AuditKeys, rows: seq<Row>, prev: string): seq<VerifyError> {
    if rows == [] then []
    else (ChainErrors(p, tenant, rows[0], prev) + SignatureErrors(p, tenant, rows[0], keys))
         + Report(p, tenant, keys, rows[1..], rows[0].hash)
  }

  function ChainReport(p: Primitives, tenant: string, rows: seq<Row>, prev: string): seq<VerifyError> {
    if rows == [] then [] else ChainErrors(p, tenant, rows[0], prev) + ChainReport(p, tenant, rows[1..], rows[0].hash)
  }

  function SignatureReport(p: Primitives, tenant: string, keys: AuditKeys, rows: seq<Row>): seq<VerifyError> {
    if rows == [] then [] else SignatureErrors(p, tenant, rows[0], keys) + SignatureReport(p, tenant, keys, rows[1..])
  }

  lemma ReportAt(p: Primitives, tenant: string, keys: AuditKeys, rows: seq<Row>, i: nat, prev: string)
    requires i < |rows|
    ensures Report(p, tenant, keys, rows[i..], prev)
         == (ChainErrors(p, tenant, rows[i], prev) + SignatureErrors(p, tenant, rows[i], keys))
            + Report(p, tenant, keys, rows[i + 1..], rows[i].hash)
    ensures ChainReport(p, tenant, rows[i..], prev)
         == ChainErrors(p, tenant, rows[i], prev) + ChainReport(p, tenant, rows[i + 1..], rows[i].hash)
    ensures SignatureReport(p, tenant, keys, rows[i..])
         == SignatureErrors(p, tenant, rows[i], keys) + SignatureReport(p, tenant, keys, rows[i + 1..])
  {
    hide ChainErrors, SignatureErrors;
    assert rows[i..][1..] == rows[i + 1..];
  }

  /** The three appends of one round of the loop. */
  lemma RowAppended(p: Primitives, tenant: string, r: Row, keys: AuditKeys, prev: string,
                    before: seq<VerifyError>, linked: seq<VerifyError>, chained: seq<VerifyError>,
                    after: seq<VerifyError>)
    requires linked == if r.prevHash != prev then before + [ChainBroken(r.number, prev, r.prevHash)] else before
    requires var computed := p.sha(RowMessage(tenant, r));
             chained == if computed != r.hash then linked + [HashMismatch(r.number, r.hash, computed)] else linked
    requires after == if Verify(p.schemes, keys, RowMessage(tenant, r), r.sig) then chained
                      else chained + [SignatureFailed(r.number)]
    ensures after == before + ChainErrors(p, tenant, r, prev) + SignatureErrors(p, tenant, r, keys)
  {
    hide Verify, RowMessage;
  }

  /** `verify_with_pool` on the tenant's rows in order. */
  method VerifyWithPool(p: Primitives, tenant: string, rows: seq<Row>, keys: AuditKeys)
    returns (checked: nat, errors: seq<VerifyError>)
    ensures checked == |rows|
    ensures errors == Report(p, tenant, keys, rows, ZERO_HASH)
  {
    errors := [];
    var prevHash := ZERO_HASH;
    assert rows[0..] == rows;
    for i := 0 to |rows|
      invariant errors + Report(p, tenant, keys, rows[i..], prevHash) == Report(p, tenant, keys, rows, ZERO_HASH)
    {
      hide Verify, RowMessage, Report;
      var r := rows[i];
      ghost var before := errors;
      var message := RowMessage(tenant, r);
      if r.prevHash != prevHash {
        errors := errors + [ChainBroken(r.number, prevHash, r.prevHash)];
      }
      ghost var linked := errors;
      var computed := p.sha(message);
      if computed != r.hash {
        errors := errors + [HashMismatch(r.number, r.hash, computed)];
      }
      ghost var chained := errors;
      if !Verify(p.schemes, keys, message, r.sig) {
        errors := errors + [SignatureFailed(r.number)];
      }
      RowAppended(p, tenant, r, keys, prevHash, before, linked, chained, errors);
      hide *;
      ReportAt(p, tenant, keys, rows, i, prevHash);
      Associative4(before, ChainErrors(p, tenant, r, prevHash), SignatureErrors(p, tenant, r, keys),
                   Report(p, tenant, keys, rows[i + 1..], r.hash));
      prevHash := r.hash;
    }
    checked := |rows|;
    assert errors + [] == errors;
  }

  /** `verify_tenant`: a chain pass, then a signature pass if the keys load. */
  method VerifyTenant(p: Primitives, tenant: string, rows: seq<Row>, keys: Option<AuditKeys>)
    returns (ok: bool, errors: seq<VerifyError>)
    ensures errors == ChainReport(p, tenant, rows, ZERO_HASH)
                      + if keys.Some? then SignatureReport(p, tenant, keys.value, rows) else []
    ensures ok <==> errors == []
  {
    hide ChainReport, SignatureReport;
    errors := ChainPass(p, tenant, rows);
    ghost var chain := errors;
    if keys.Some? {
      var failures := SignaturePass(p, tenant, rows, keys.value);
      assert failures[..0] == [];
      for i := 0 to |failures|
        invariant errors == chain + Failures(failures[..i])
      {
        errors := errors + [SignatureFailed(failures[i])];
        assert Failures(failures[..i + 1]) == Failures(failures[..i]) + [SignatureFailed(failures[i])];
      }
      assert failures[..|failures|] == failures;
    }
    ok := errors == [];
  }

  function Failures(numbers: seq<nat>): seq<VerifyError> {
    seq(|numbers|, i requires 0 <= i < |numbers| => SignatureFailed(numbers[i]))
  }

  /** The numbers of the rows whose signatures fail. */
  method SignaturePass(p: Primitives, tenant: string, rows: seq<Row>, keys: AuditKeys) returns (failures: seq<nat>)
    ensures Failures(failures) == SignatureReport(p, tenant, keys, rows)
  {
    failures := [];
    assert rows[0..] == rows;
    for i := 0 to |rows|
      invariant Failures(failures) + SignatureReport(p, tenant, keys, rows[i..])
             == SignatureReport(p, tenant, keys, rows)
    {
      hide Verify, RowMessage, SignatureReport;
      ghost var before := Failures(failures);
      if !Verify(p.schemes, keys, RowMessage(tenant, rows[i]), rows[i].sig) {
        failures := failures + [rows[i].number];
      }
      assert Failures(failures) == before + SignatureErrors(p, tenant, rows[i], keys);
      hide SignatureErrors, Failures;
      ReportAt(p, tenant, keys, rows, i, "");
      Associative(before, SignatureErrors(p, tenant, rows[i], keys), SignatureReport(p, tenant, keys, rows[i + 1..]));
    }
    assert Failures(failures) + [] == Failures(failures);
  }

  /** The loop that the offline verifier and `verify_tenant` share. */
  method ChainPass(p: Primitives, tenant: string, rows: seq<Row>) returns (errors: seq<VerifyError>)
    ensures errors == ChainReport(p, tenant, rows, ZERO_HASH)
  {
    errors := [];
    var prevHash := ZERO_HASH;
    ghost var any := AuditKeys([], [], [], []);
    assert rows[0..] == rows;
    for i := 0 to |rows|
      invariant errors + ChainReport(p, tenant, rows[i..], prevHash) == ChainReport(p, tenant, rows, ZERO_HASH)
    {
      hide RowMessage, ChainReport;
      var r := rows[i];
      ghost var before := errors;
      if r.prevHash != prevHash {
        errors := errors + [ChainBroken(r.number, prevHash, r.prevHash)];
      }
      var computed := p.sha(RowMessage(tenant, r));
      if computed != r.hash {
        errors := errors + [HashMismatch(r.number, r.hash, computed)];
      }
      assert errors == before + ChainErrors(p, tenant, r, prevHash);
      hide ChainErrors;
      ReportAt(p, tenant, any, rows, i, prevHash);
      Associative(before, ChainErrors(p, tenant, r, prevHash), ChainReport(p, tenant, rows[i + 1..], r.hash));
      prevHash := r.hash;
    }
    assert errors + [] == errors;
  }

  /** `local_audit_verify`: chain and hashes only. */
  method LocalAuditVerify(p: Primitives, tenant: string, rows: seq<Row>)
    returns (checked: nat, errors: seq<VerifyError>, verified: bool)
    ensures checked == |rows|
    ensures errors == ChainReport(p, tenant, rows, ZERO_HASH)
    ensures verified <==> errors == []
  {
    errors := ChainPass(p, tenant, rows);
    checked, verified := |rows|, errors == [];
  }

  // -------------------------------------------------------- the writer

  /** The arguments of one `entry` call, with the time and the attestation hash
      it observes. */
  datatype Args = Args(tenant: string, machine: string, event: string, payload: string, ts: string,
                       keys: AuditKeys, sevHash: Option<string>)

  /** The row that a call writes after reading `prev`. */
  function MakeRow(p: Primitives, number: nat, a: Args, prev: string): Row {
    var message := Message(a.ts, a.tenant, a.machine, a.event, a.payload, prev);
    Row(number, a.tenant, a.ts, a.machine, a.event, a.payload, prev, p.sha(message),
        Sign(p.schemes, a.keys, message), a.sevHash)
  }

  /** The rows of one tenant, in order: what every verifier selects. */
  function RowsOf(rows: seq<Row>, tenant: string): seq<Row> {
    if rows == [] then []
    else
      var last := rows[|rows| - 1];
      RowsOf(rows[..|rows| - 1], tenant) + if last.tenant == tenant then [last] else []
  }

  /** The hash the chain has reached after these rows. */
  function EndHash(rows: seq<Row>, start: string): string {
    if rows == [] then start else rows[|rows| - 1].hash
  }

  /** What the read step of `entry` returns. */
  function LastHash(rows: seq<Row>, tenant: string): string {
    EndHash(RowsOf(rows, tenant), ZERO_HASH)
  }

  /** The audit_entries table. */
  class Table {
    var rows: seq<Row>

    constructor ()
      ensures rows == []
    {
      rows := [];
    }

    method Insert(p: Primitives, a: Args, prev: string)
      modifies this
      ensures rows == old(rows) + [MakeRow(p, |old(rows)| + 1, a, prev)]
    {
      rows := rows + [MakeRow(p, |rows| + 1, a, prev)];
    }

    /** `entry`, run without interruption. */
    method Entry(p: Primitives, a: Args)
      modifies this
      ensures rows == old(rows) + [MakeRow(p, |old(rows)| + 1, a, LastHash(old(rows), a.tenant))]
    {
      var prev := LastHash(rows, a.tenant);
      Insert(p, a, prev);
    }

    /** `rotate_audit_keys`: the rotation entry is signed with the old keys. */
    method RotateAuditKeys(p: Primitives, tenant: string, machine: string, ts: string, sevHash: Option<string>,
                           oldKeys: AuditKeys, newKeys: AuditKeys, oldFp: string, newFp: string)
      returns (current: AuditKeys)
      modifies this
      ensures rows == old(rows)
                      + [MakeRow(p, |old(rows)| + 1, RotationArgs(tenant, machine, ts, sevHash, oldKeys, oldFp, newFp),
                                 LastHash(old(rows), tenant))]
      ensures current == newKeys
    {
      Entry(p, RotationArgs(tenant, machine, ts, sevHash, oldKeys, oldFp, newFp));
      current := newKeys;
    }
  }

  const ROTATION := "key_rotation"

  /** The rotation payload as serde_json prints it, keys in order. */
  function RotationPayload(oldFp: string, newFp: string): string {
    "{\"new_ed25519_fingerprint\":\"" + newFp + "\",\"old_ed25519_fingerprint\":\"" + oldFp
    + "\",\"reason\":\"scheduled_rotation\",\"rotation\":\"audit_keys\"}"
  }

  function RotationArgs(tenant: string, machine: string, ts: string, sevHash: Option<string>, oldKeys: AuditKeys,
                        oldFp: string, newFp: string): Args {
    Args(tenant, machine, ROTATION, RotationPayload(oldFp, newFp), ts, oldKeys, sevHash)
  }
}
