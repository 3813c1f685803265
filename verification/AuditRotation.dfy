/** Key rotation over whole runs of the audit log (gateway/src/audit/log.rs).
    The gateway signs every tenant's entries with one set of keys, and a
    rotation is recorded under one tenant only. */
module AuditRotation {
  import opened Prelude
  import opened HybridSig
  import opened Audit
  import AuditTamper

  /** What the gateway does to its table. */
  datatype Op =
    | Log(tenant: string, machine: string, event: string, payload: string, ts: string, sevHash: Option<string>)
    | Rotate(tenant: string, machine: string, ts: string, sevHash: Option<string>, newKeys: AuditKeys)

  /** The call to `entry` behind an operation; `fp` is the fingerprint of a
      public key. */
  function ArgsOf(fp: Bytes -> string, op: Op, keys: AuditKeys): Args {
    match op
    case Log(tenant, machine, event, payload, ts, sevHash) =>
      Args(tenant, machine, event, payload, ts, keys, sevHash)
    case Rotate(tenant, machine, ts, sevHash, newKeys) =>
      RotationArgs(tenant, machine, ts, sevHash, keys, fp(keys.edPublic), fp(newKeys.edPublic))
  }

  /** The gateway's keys after a run that starts with `keys`. */
  function Current(ops: seq<Op>, keys: AuditKeys): AuditKeys {
    if ops == [] then keys
    else
      var last := ops[|ops| - 1];
      if last.Rotate? then last.newKeys else Current(ops[..|ops| - 1], keys)
  }

  /** The table after a run. */
  function Rows(p: Primitives, fp: Bytes -> string, start: seq<Row>, ops: seq<Op>, keys: AuditKeys): seq<Row> {
    if ops == [] then start
    else
      var front, last := ops[..|ops| - 1], ops[|ops| - 1];
      var rows := Rows(p, fp, start, front, keys);
      rows + [MakeRow(p, |rows| + 1, ArgsOf(fp, last, Current(front, keys)), LastHash(rows, last.tenant))]
  }

  /** The gateway performing the operations one after another on its table. */
  method Perform(table: Table, p: Primitives, fp: Bytes -> string, ops: seq<Op>, keys: AuditKeys)
    returns (current: AuditKeys)
    modifies table
    ensures table.rows == Rows(p, fp, old(table.rows), ops, keys)
    ensures current == Current(ops, keys)
  {
    hide MakeRow, RotationArgs, LastHash;
    current := keys;
    for i := 0 to |ops|
      invariant table.rows == Rows(p, fp, old(table.rows), ops[..i], keys)
      invariant current == Current(ops[..i], keys)
    {
      assert ops[..i + 1][..i] == ops[..i];
      match ops[i] {
        case Log(tenant, machine, event, payload, ts, sevHash) =>
          table.Entry(p, Args(tenant, machine, event, payload, ts, current, sevHash));
        case Rotate(tenant, machine, ts, sevHash, newKeys) =>
          current := table.RotateAuditKeys(p, tenant, machine, ts, sevHash, current, newKeys,
                                           fp(current.edPublic), fp(newKeys.edPublic));
      }
    }
    assert ops[..|ops|] == ops;
  }

  /** One more operation extends its own tenant's log by one row, which
      continues that log, and no other. */
  lemma LogAfterOp(p: Primitives, fp: Bytes -> string, start: seq<Row>, ops: seq<Op>, keys: AuditKeys, tenant: string)
    requires ops != []
    ensures var front, last := ops[..|ops| - 1], ops[|ops| - 1];
            var rows := Rows(p, fp, start, front, keys);
            var a, log := ArgsOf(fp, last, Current(front, keys)), RowsOf(rows, tenant);
            && a.tenant == last.tenant && a.keys == Current(front, keys)
            && RowsOf(Rows(p, fp, start, ops, keys), tenant)
               == if last.tenant == tenant then log + [MakeRow(p, |rows| + 1, a, EndHash(log, ZERO_HASH))] else log
  {
    var front, last := ops[..|ops| - 1], ops[|ops| - 1];
    var rows := Rows(p, fp, start, front, keys);
    var a := ArgsOf(fp, last, Current(front, keys));
    ArgsAreOf(fp, last, Current(front, keys));
    MadeFor(p, |rows| + 1, a, LastHash(rows, last.tenant));
    hide MakeRow, ArgsOf, Current, RowsOf, EndHash;
    RowsOfSnoc(rows, MakeRow(p, |rows| + 1, a, LastHash(rows, last.tenant)), tenant);
  }

  lemma ArgsAreOf(fp: Bytes -> string, op: Op, keys: AuditKeys)
    ensures ArgsOf(fp, op, keys).tenant == op.tenant && ArgsOf(fp, op, keys).keys == keys
  {
  }

  lemma MadeFor(p: Primitives, number: nat, a: Args, prev: string)
    ensures MakeRow(p, number, a, prev).tenant == a.tenant
  {
    hide Sign;
  }

  lemma RowsOfSnoc(rows: seq<Row>, r: Row, tenant: string)
    ensures RowsOf(rows + [r], tenant)
         == if r.tenant == tenant then RowsOf(rows, tenant) + [r] else RowsOf(rows, tenant)
  {
    assert (rows + [r])[..|rows + [r]| - 1] == rows;
  }

  lemma {:induction false} RowCount(p: Primitives, fp: Bytes -> string, ops: seq<Op>, keys: AuditKeys)
    ensures |Rows(p, fp, [], ops, keys)| == |ops|
  {
    if ops != [] {
      RowCount(p, fp, ops[..|ops| - 1], keys);
    }
  }

  // ------------------------------------- what one key makes of a run

  /** What the schemes owe a set of key pairs: each pair verifies its own
      signatures and no other pair's. */
  ghost predicate KeyPairs(s: Schemes, keys: set<AuditKeys>) {
    && WellBehaved(s)
    && (forall k | k in keys :: |k.mlSecret| == ML_SEED_LEN && |k.mlPublic| == ML_PUBLIC_LEN)
    && (forall k, m | k in keys :: s.mlVerifies(k.mlPublic, m, s.mlSign(k.mlSecret, m)))
    && forall k, k', m | k in keys && k' in keys :: s.edVerifies(k.edPublic, m, s.edSign(k'.edSecret, m)) <==> k == k'
  }

  lemma OwnSignaturesOnly(s: Schemes, keys: set<AuditKeys>, k: AuditKeys, signer: AuditKeys, m: string)
    requires KeyPairs(s, keys) && k in keys && signer in keys
    ensures Verify(s, k, m, Sign(s, signer, m)) <==> k == signer
  {
    VerifySigned(s, signer, m, k, m);
    hide Verify, Sign, WellBehaved;
  }

  predicate KeysIn(ops: seq<Op>, keys: AuditKeys, all: set<AuditKeys>) {
    keys in all && forall op :: op in ops && op.Rotate? ==> op.newKeys in all
  }

  lemma KeysInFront(ops: seq<Op>, keys: AuditKeys, all: set<AuditKeys>)
    requires ops != [] && KeysIn(ops, keys, all)
    ensures KeysIn(ops[..|ops| - 1], keys, all)
    ensures Current(ops[..|ops| - 1], keys) in all
  {
    CurrentIn(ops[..|ops| - 1], keys, all);
  }

  lemma {:induction false} CurrentIn(ops: seq<Op>, keys: AuditKeys, all: set<AuditKeys>)
    requires KeysIn(ops, keys, all)
    ensures Current(ops, keys) in all
  {
    if ops != [] {
      assert ops[|ops| - 1] in ops;
      CurrentIn(ops[..|ops| - 1], keys, all);
    }
  }

  /** The tenant's rows that other keys signed, as signature failures under
      their numbers in the table. */
  function SignedByOthers(ops: seq<Op>, keys: AuditKeys, tenant: string, k: AuditKeys): seq<VerifyError> {
    if ops == [] then []
    else
      var front := ops[..|ops| - 1];
      SignedByOthers(front, keys, tenant, k)
      + if ops[|ops| - 1].tenant == tenant && Current(front, keys) != k then [SignatureFailed(|ops|)] else []
  }

  /** What the verifier says about one written row. */
  lemma WrittenRowReport(p: Primitives, all: set<AuditKeys>, k: AuditKeys, number: nat, a: Args, prev: string)
    requires KeyPairs(p.schemes, all) && k in all && a.keys in all
    ensures var r := MakeRow(p, number, a, prev);
            && ChainErrors(p, a.tenant, r, prev) == []
            && SignatureErrors(p, a.tenant, r, k) == (if a.keys == k then [] else [SignatureFailed(number)])
  {
    OwnSignaturesOnly(p.schemes, all, k, a.keys, Message(a.ts, a.tenant, a.machine, a.event, a.payload, prev));
    hide Verify, Sign, KeyPairs, Message;
  }

  /** One row at the end of a log. */
  lemma ReportSnoc(p: Primitives, tenant: string, k: AuditKeys, log: seq<Row>, r: Row)
    ensures Report(p, tenant, k, log + [r], ZERO_HASH)
         == Report(p, tenant, k, log, ZERO_HASH)
            + (ChainErrors(p, tenant, r, EndHash(log, ZERO_HASH)) + SignatureErrors(p, tenant, r, k))
    ensures ChainReport(p, tenant, log + [r], ZERO_HASH)
         == ChainReport(p, tenant, log, ZERO_HASH) + ChainErrors(p, tenant, r, EndHash(log, ZERO_HASH))
  {
    AuditTamper.ReportConcat(p, tenant, k, log, [r], ZERO_HASH);
    AuditTamper.ChainConcat(p, tenant, log, [r], ZERO_HASH);
    var end := EndHash(log, ZERO_HASH);
    OneRow(p, tenant, k, r, end);
  }

  lemma OneRow(p: Primitives, tenant: string, k: AuditKeys, r: Row, prev: string)
    ensures Report(p, tenant, k, [r], prev) == ChainErrors(p, tenant, r, prev) + SignatureErrors(p, tenant, r, k)
    ensures ChainReport(p, tenant, [r], prev) == ChainErrors(p, tenant, r, prev)
  {
    hide ChainErrors, SignatureErrors;
    assert [r][1..] == [];
  }

  /** Over every run of entries and rotations of all tenants on the shared table,
      each tenant's chain stays unbroken, and `verify_with_pool` under one key
      reports a signature failure at exactly the tenant's rows that other keys
      signed, and nothing else. */
  lemma {:induction false} OneKeyReport(p: Primitives, fp: Bytes -> string, ops: seq<Op>, keys: AuditKeys,
                                        all: set<AuditKeys>, tenant: string, k: AuditKeys)
    requires KeyPairs(p.schemes, all) && KeysIn(ops, keys, all) && k in all
    ensures ChainReport(p, tenant, RowsOf(Rows(p, fp, [], ops, keys), tenant), ZERO_HASH) == []
    ensures Report(p, tenant, k, RowsOf(Rows(p, fp, [], ops, keys), tenant), ZERO_HASH)
         == SignedByOthers(ops, keys, tenant, k)
  {
    hide *;
    if ops == [] {
      NothingReported(p, fp, keys, tenant, k);
    } else {
      var front, last := ops[..|ops| - 1], ops[|ops| - 1];
      var rows := Rows(p, fp, [], front, keys);
      KeysInFront(ops, keys, all);
      OneKeyReport(p, fp, front, keys, all, tenant, k);
      RowCount(p, fp, front, keys);
      LogAfterOp(p, fp, [], ops, keys, tenant);
      OthersSnoc(ops, keys, tenant, k);
      if last.tenant == tenant {
        var a, log := ArgsOf(fp, last, Current(front, keys)), RowsOf(rows, tenant);
        WrittenRowReport(p, all, k, |ops|, a, EndHash(log, ZERO_HASH));
        ReportSnoc(p, tenant, k, log, MakeRow(p, |ops|, a, EndHash(log, ZERO_HASH)));
      }
    }
  }

  lemma NothingReported(p: Primitives, fp: Bytes -> string, keys: AuditKeys, tenant: string, k: AuditKeys)
    ensures ChainReport(p, tenant, RowsOf(Rows(p, fp, [], [], keys), tenant), ZERO_HASH) == []
    ensures Report(p, tenant, k, RowsOf(Rows(p, fp, [], [], keys), tenant), ZERO_HASH)
         == SignedByOthers([], keys, tenant, k)
  {
  }

  lemma OthersSnoc(ops: seq<Op>, keys: AuditKeys, tenant: string, k: AuditKeys)
    requires ops != []
    ensures SignedByOthers(ops, keys, tenant, k)
         == SignedByOthers(ops[..|ops| - 1], keys, tenant, k)
            + if ops[|ops| - 1].tenant == tenant && Current(ops[..|ops| - 1], keys) != k
              then [SignatureFailed(|ops|)] else []
  {
  }

  /** Every row of the tenant is signed by `k`. */
  predicate SignedOnlyBy(ops: seq<Op>, keys: AuditKeys, tenant: string, k: AuditKeys) {
    forall i :: 0 <= i < |ops| && ops[i].tenant == tenant ==> Current(ops[..i], keys) == k
  }

  lemma {:induction false} OthersEmpty(ops: seq<Op>, keys: AuditKeys, tenant: string, k: AuditKeys)
    ensures SignedByOthers(ops, keys, tenant, k) == [] <==> SignedOnlyBy(ops, keys, tenant, k)
  {
    if ops != [] {
      var front, n := ops[..|ops| - 1], |ops| - 1;
      OthersEmpty(front, keys, tenant, k);
      assert forall i :: 0 <= i < n ==> front[i] == ops[i] && front[..i] == ops[..i];
      hide Current;
    }
  }

  /** One key clears a tenant's log exactly when it signed every row of it. */
  lemma KeyClearsIff(p: Primitives, fp: Bytes -> string, ops: seq<Op>, keys: AuditKeys, all: set<AuditKeys>,
                     tenant: string, k: AuditKeys)
    requires KeyPairs(p.schemes, all) && KeysIn(ops, keys, all) && k in all
    ensures Report(p, tenant, k, RowsOf(Rows(p, fp, [], ops, keys), tenant), ZERO_HASH) == []
            <==> forall i :: 0 <= i < |ops| && ops[i].tenant == tenant ==> Current(ops[..i], keys) == k
  {
    OneKeyReport(p, fp, ops, keys, all, tenant, k);
    OthersEmpty(ops, keys, tenant, k);
    hide Report, Rows, RowsOf, SignedByOthers, Current, KeyPairs;
  }

  /** So `verify_with_pool`, which has one key, can clear a tenant's log exactly
      when no rotation to other keys, by any tenant, falls between two of its
      rows. */
  lemma SomeKeyClearsIff(p: Primitives, fp: Bytes -> string, ops: seq<Op>, keys: AuditKeys, all: set<AuditKeys>,
                         tenant: string)
    requires KeyPairs(p.schemes, all) && KeysIn(ops, keys, all)
    ensures (exists k :: k in all && Report(p, tenant, k, RowsOf(Rows(p, fp, [], ops, keys), tenant), ZERO_HASH) == [])
            <==> forall i, j :: 0 <= i < j < |ops| && ops[i].tenant == tenant && ops[j].tenant == tenant ==>
                   Current(ops[..i], keys) == Current(ops[..j], keys)
  {
    hide Report, Rows, RowsOf, Current, KeyPairs;
    forall k | k in all
      ensures Report(p, tenant, k, RowsOf(Rows(p, fp, [], ops, keys), tenant), ZERO_HASH) == []
              <==> SignedOnlyBy(ops, keys, tenant, k)
    {
      KeyClearsIff(p, fp, ops, keys, all, tenant, k);
    }
    if i :| 0 <= i < |ops| && ops[i].tenant == tenant {
      var k := Current(ops[..i], keys);
      KeysInPrefix(ops, keys, all, i);
      if forall i, j :: 0 <= i < j < |ops| && ops[i].tenant == tenant && ops[j].tenant == tenant ==>
           Current(ops[..i], keys) == Current(ops[..j], keys) {
        assert SignedOnlyBy(ops, keys, tenant, k);
      }
    } else {
      assert SignedOnlyBy(ops, keys, tenant, keys);
    }
  }

  lemma KeysInPrefix(ops: seq<Op>, keys: AuditKeys, all: set<AuditKeys>, i: nat)
    requires i <= |ops| && KeysIn(ops, keys, all)
    ensures Current(ops[..i], keys) in all
  {
    CurrentIn(ops[..i], keys, all);
  }

  // --------------------------------------- following the rotations

  const FINGERPRINT_AT := 28
  const FINGERPRINT_LEN := 64

  /** The new fingerprint that a rotation entry announces. */
  function Announced(r: Row): Option<string> {
    if r.event == ROTATION && |r.payload| >= FINGERPRINT_AT + FINGERPRINT_LEN
    then Some(r.payload[FINGERPRINT_AT..FINGERPRINT_AT + FINGERPRINT_LEN]) else None
  }

  /** The documented verifier at one row: its signature must be the current
      key's, and a rotation entry names the next one, which must be on the
      ring. */
  function FollowRow(p: Primitives, tenant: string, ring: map<string, AuditKeys>, r: Row, k: AuditKeys)
    : Option<AuditKeys>
  {
    var named := Announced(r);
    if SignatureErrors(p, tenant, r, k) != [] then None
    else if named.None? then Some(k)
    else if named.value in ring then Some(ring[named.value])
    else None
  }

  /** The documented verifier on one tenant's log: it starts with one key and
      follows the rotation entries. The key it ends with, or None once a row
      fails. */
  function Follow(p: Primitives, tenant: string, ring: map<string, AuditKeys>, log: seq<Row>, k: AuditKeys)
    : Option<AuditKeys>
  {
    if log == [] then Some(k)
    else
      var before := Follow(p, tenant, ring, log[..|log| - 1], k);
      if before.None? then None else FollowRow(p, tenant, ring, log[|log| - 1], before.value)
  }

  predicate FollowAccepts(p: Primitives, tenant: string, ring: map<string, AuditKeys>, log: seq<Row>, k: AuditKeys) {
    Follow(p, tenant, ring, log, k).Some?
  }

  /** Every key of the run is on the ring under its fingerprint. */
  predicate OnRing(fp: Bytes -> string, ring: map<string, AuditKeys>, all: set<AuditKeys>) {
    forall k :: k in all ==>
      |fp(k.edPublic)| == FINGERPRINT_LEN && fp(k.edPublic) in ring && ring[fp(k.edPublic)] == k
  }

  lemma AnnouncedByRotation(oldFp: string, newFp: string)
    requires |newFp| == FINGERPRINT_LEN
    ensures |RotationPayload(oldFp, newFp)| >= FINGERPRINT_AT + FINGERPRINT_LEN
    ensures RotationPayload(oldFp, newFp)[FINGERPRINT_AT..FINGERPRINT_AT + FINGERPRINT_LEN] == newFp
  {
    var head := "{\"new_ed25519_fingerprint\":\"";
    assert |head| == FINGERPRINT_AT;
    var middle := "\",\"old_ed25519_fingerprint\":\"";
    var end := "\",\"reason\":\"scheduled_rotation\",\"rotation\":\"audit_keys\"}";
    assert RotationPayload(oldFp, newFp) == head + newFp + (middle + oldFp + end);
    hide RotationPayload;
    Middle(head, newFp, middle + oldFp + end);
  }

  lemma Middle(a: string, b: string, c: string)
    ensures (a + b + c)[|a|..|a| + |b|] == b
  {
  }

  /** What an operation's row announces: its new keys, if it is a rotation. */
  lemma RowAnnounces(p: Primitives, fp: Bytes -> string, op: Op, keys: AuditKeys, prev: string, number: nat)
    requires op.Log? ==> op.event != ROTATION
    requires op.Rotate? ==> |fp(op.newKeys.edPublic)| == FINGERPRINT_LEN
    ensures Announced(MakeRow(p, number, ArgsOf(fp, op, keys), prev))
         == if op.Rotate? then Some(fp(op.newKeys.edPublic)) else None
  {
    if op.Rotate? {
      AnnouncedByRotation(fp(keys.edPublic), fp(op.newKeys.edPublic));
    }
    hide RotationPayload, Message, Sign;
  }

  /** The keys that the tenant's own rotations lead to. */
  function OwnKeys(ops: seq<Op>, keys: AuditKeys, tenant: string): AuditKeys {
    if ops == [] then keys
    else
      var last := ops[|ops| - 1];
      if last.Rotate? && last.tenant == tenant then last.newKeys else OwnKeys(ops[..|ops| - 1], keys, tenant)
  }

  /** At each of the tenant's rows the gateway signs with the keys that the
      tenant's own rotations have led to. */
  predicate InStep(ops: seq<Op>, keys: AuditKeys, tenant: string) {
    forall i :: 0 <= i < |ops| && ops[i].tenant == tenant ==>
      Current(ops[..i], keys) == OwnKeys(ops[..i], keys, tenant)
  }

  lemma InStepSnoc(ops: seq<Op>, keys: AuditKeys, tenant: string)
    requires ops != []
    ensures var front := ops[..|ops| - 1];
            InStep(ops, keys, tenant)
            <==> && InStep(front, keys, tenant)
                 && (ops[|ops| - 1].tenant == tenant ==> Current(front, keys) == OwnKeys(front, keys, tenant))
  {
    hide Current, OwnKeys;
    var front := ops[..|ops| - 1];
    assert forall i :: 0 <= i < |front| ==> front[i] == ops[i] && front[..i] == ops[..i];
  }

  lemma {:induction false} OwnKeysIn(ops: seq<Op>, keys: AuditKeys, tenant: string, all: set<AuditKeys>)
    requires KeysIn(ops, keys, all)
    ensures OwnKeys(ops, keys, tenant) in all
  {
    if ops != [] {
      assert ops[|ops| - 1] in ops;
      OwnKeysIn(ops[..|ops| - 1], keys, tenant, all);
    }
  }

  /** One row at the end of a log that is followed. */
  lemma FollowSnoc(p: Primitives, tenant: string, ring: map<string, AuditKeys>, log: seq<Row>, r: Row, k: AuditKeys)
    ensures Follow(p, tenant, ring, log, k).None? ==> Follow(p, tenant, ring, log + [r], k).None?
    ensures Follow(p, tenant, ring, log, k).Some? ==>
              Follow(p, tenant, ring, log + [r], k)
              == FollowRow(p, tenant, ring, r, Follow(p, tenant, ring, log, k).value)
  {
    hide FollowRow;
    assert (log + [r])[..|log + [r]| - 1] == log;
  }

  /** What the documented verifier says about one written row. */
  lemma WrittenRowFollowed(p: Primitives, fp: Bytes -> string, all: set<AuditKeys>, ring: map<string, AuditKeys>,
                           op: Op, keys: AuditKeys, k: AuditKeys, prev: string, number: nat)
    requires KeyPairs(p.schemes, all) && OnRing(fp, ring, all) && keys in all && k in all
    requires op.Log? ==> op.event != ROTATION
    requires op.Rotate? ==> op.newKeys in all
    ensures FollowRow(p, op.tenant, ring, MakeRow(p, number, ArgsOf(fp, op, keys), prev), k)
         == if k != keys then None else if op.Rotate? then Some(op.newKeys) else Some(k)
  {
    var a := ArgsOf(fp, op, keys);
    assert a.tenant == op.tenant && a.keys == keys;
    assert op.Rotate? ==> |fp(op.newKeys.edPublic)| == FINGERPRINT_LEN && fp(op.newKeys.edPublic) in ring
                          && ring[fp(op.newKeys.edPublic)] == op.newKeys;
    hide MakeRow, ArgsOf, KeyPairs, OnRing, SignatureErrors, Announced;
    WrittenRowReport(p, all, k, number, a, prev);
    RowAnnounces(p, fp, op, keys, prev, number);
  }

  lemma NothingFollowed(p: Primitives, fp: Bytes -> string, keys: AuditKeys, ring: map<string, AuditKeys>,
                        tenant: string)
    ensures Follow(p, tenant, ring, RowsOf(Rows(p, fp, [], [], keys), tenant), keys) == Some(keys)
    ensures InStep([], keys, tenant) && OwnKeys([], keys, tenant) == keys
  {
  }

  lemma OwnKeysSnoc(ops: seq<Op>, keys: AuditKeys, all: set<AuditKeys>, tenant: string)
    requires ops != [] && KeysIn(ops, keys, all)
    ensures var front, last := ops[..|ops| - 1], ops[|ops| - 1];
            && (last.Rotate? ==> last.newKeys in all)
            && OwnKeys(ops, keys, tenant)
               == if last.Rotate? && last.tenant == tenant then last.newKeys else OwnKeys(front, keys, tenant)
  {
    assert ops[|ops| - 1] in ops;
  }

  /** Following a tenant's rotations leads to its own keys as long as the gateway
      is in step with them, and fails from the first row where it is not. */
  lemma {:induction false} FollowIs(p: Primitives, fp: Bytes -> string, ops: seq<Op>, keys: AuditKeys,
                                    all: set<AuditKeys>, ring: map<string, AuditKeys>, tenant: string)
    requires KeyPairs(p.schemes, all) && KeysIn(ops, keys, all) && OnRing(fp, ring, all)
    requires forall op :: op in ops && op.Log? ==> op.event != ROTATION
    ensures Follow(p, tenant, ring, RowsOf(Rows(p, fp, [], ops, keys), tenant), keys)
         == if InStep(ops, keys, tenant) then Some(OwnKeys(ops, keys, tenant)) else None
  {
    hide *;
    if ops == [] {
      NothingFollowed(p, fp, keys, ring, tenant);
    } else {
      var front, last := ops[..|ops| - 1], ops[|ops| - 1];
      assert last in ops;
      OwnKeysSnoc(ops, keys, all, tenant);
      KeysInFront(ops, keys, all);
      OwnKeysIn(front, keys, tenant, all);
      FollowIs(p, fp, front, keys, all, ring, tenant);
      LogAfterOp(p, fp, [], ops, keys, tenant);
      InStepSnoc(ops, keys, tenant);
      if last.tenant == tenant {
        var rows := Rows(p, fp, [], front, keys);
        var a, log := ArgsOf(fp, last, Current(front, keys)), RowsOf(rows, tenant);
        var prev := EndHash(log, ZERO_HASH);
        var r := MakeRow(p, |rows| + 1, a, prev);
        FollowSnoc(p, tenant, ring, log, r, keys);
        WrittenRowFollowed(p, fp, all, ring, last, Current(front, keys), OwnKeys(front, keys, tenant), prev,
                           |rows| + 1);
      }
    }
  }

  /** Operation `j` is the last rotation before operation `i`. */
  predicate LastRotation(ops: seq<Op>, j: nat, i: nat) {
    j < i <= |ops| && ops[j].Rotate? && forall l :: j < l < i ==> !ops[l].Rotate?
  }

  /** A row of the tenant is written after a rotation that only another tenant's
      log records, to keys that the tenant's own rotations have not reached. */
  predicate Stranded(ops: seq<Op>, keys: AuditKeys, tenant: string) {
    exists i: nat, j: nat :: j < i < |ops| && ops[i].tenant == tenant && LastRotation(ops, j, i)
                             && ops[j].tenant != tenant && ops[j].newKeys != OwnKeys(ops[..i], keys, tenant)
  }

  lemma {:induction false} KeysOfLastRotation(ops: seq<Op>, keys: AuditKeys, tenant: string, i: nat)
    returns (j: Option<nat>)
    requires i <= |ops|
    ensures j.None? ==> (Current(ops[..i], keys) == keys == OwnKeys(ops[..i], keys, tenant)
                         && forall l :: 0 <= l < i ==> !ops[l].Rotate?)
    ensures j.Some? ==> && LastRotation(ops, j.value, i) && Current(ops[..i], keys) == ops[j.value].newKeys
                        && (ops[j.value].tenant == tenant ==>
                              OwnKeys(ops[..i], keys, tenant) == ops[j.value].newKeys)
  {
    if i == 0 {
      j := None;
    } else {
      assert ops[..i][..i - 1] == ops[..i - 1] && ops[..i][i - 1] == ops[i - 1];
      if ops[i - 1].Rotate? {
        j := Some(i - 1);
      } else {
        j := KeysOfLastRotation(ops, keys, tenant, i - 1);
      }
    }
  }

  lemma InStepIffNotStranded(ops: seq<Op>, keys: AuditKeys, tenant: string)
    ensures InStep(ops, keys, tenant) <==> !Stranded(ops, keys, tenant)
  {
    forall i: nat | i < |ops| && ops[i].tenant == tenant
      ensures Current(ops[..i], keys) != OwnKeys(ops[..i], keys, tenant)
              <==> exists j: nat :: LastRotation(ops, j, i) && ops[j].tenant != tenant
                                    && ops[j].newKeys != OwnKeys(ops[..i], keys, tenant)
    {
      var found := KeysOfLastRotation(ops, keys, tenant, i);
      hide Current, OwnKeys;
    }
    hide Current, OwnKeys, LastRotation;
  }

  /** Choosing each row's key by following the rotation entries of a tenant's log
      accepts that log exactly when no row of it was signed after a rotation
      that only another tenant's log records, to keys not reached by its own. */
  lemma FollowingAcceptsIff(p: Primitives, fp: Bytes -> string, ops: seq<Op>, keys: AuditKeys, all: set<AuditKeys>,
                            ring: map<string, AuditKeys>, tenant: string)
    requires KeyPairs(p.schemes, all) && KeysIn(ops, keys, all) && OnRing(fp, ring, all)
    requires forall op :: op in ops && op.Log? ==> op.event != ROTATION
    ensures FollowAccepts(p, tenant, ring, RowsOf(Rows(p, fp, [], ops, keys), tenant), keys)
            <==> !Stranded(ops, keys, tenant)
  {
    FollowIs(p, fp, ops, keys, all, ring, tenant);
    InStepIffNotStranded(ops, keys, tenant);
    hide Follow, Rows, RowsOf, InStep, Stranded, KeyPairs;
  }

  /** With one tenant nothing is ever stranded: following accepts every run. */
  lemma FollowingAcceptsOneTenant(p: Primitives, fp: Bytes -> string, ops: seq<Op>, keys: AuditKeys,
                                  all: set<AuditKeys>, ring: map<string, AuditKeys>, tenant: string)
    requires KeyPairs(p.schemes, all) && KeysIn(ops, keys, all) && OnRing(fp, ring, all)
    requires forall op :: op in ops && op.Log? ==> op.event != ROTATION
    requires forall op :: op in ops && op.Rotate? ==> op.tenant == tenant
    ensures FollowAccepts(p, tenant, ring, RowsOf(Rows(p, fp, [], ops, keys), tenant), keys)
  {
    hide KeyPairs, OnRing, KeysIn, Rows, RowsOf, FollowAccepts;
    assert forall j :: 0 <= j < |ops| ==> ops[j] in ops;
    FollowingAcceptsIff(p, fp, ops, keys, all, ring, tenant);
  }

  /** The other case exists: one tenant records a rotation, and another one's next
      row is rejected. */
  lemma OtherTenantIsStranded(keys: AuditKeys, newKeys: AuditKeys, ops: seq<Op>)
    requires |ops| == 2 && ops[0].Rotate? && ops[0].newKeys == newKeys != keys && ops[1].tenant != ops[0].tenant
    ensures Stranded(ops, keys, ops[1].tenant)
  {
    assert ops[..1][..0] == [];
    assert OwnKeys(ops[..1], keys, ops[1].tenant) == keys;
    assert LastRotation(ops, 0, 1);
  }
}
