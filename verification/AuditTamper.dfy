/** What the audit verifiers promise: the three of them agree, an error is
    reported where the log was touched, and two clean logs that end in the same
    hash hold the same messages unless SHA-256 collides. A message pins down its
    entry as far as the pipes in it allow (gateway/src/audit/verify.rs). */
module AuditTamper {
  import opened Prelude
  import opened HybridSig
  import opened Audit

  // ------------------------------------------------ reports of parts

  /** One row at the front. */
  lemma ReportCons(p: Primitives, tenant: string, keys: AuditKeys, r: Row, rest: seq<Row>, prev: string)
    ensures Report(p, tenant, keys, [r] + rest, prev)
         == (ChainErrors(p, tenant, r, prev) + SignatureErrors(p, tenant, r, keys))
            + Report(p, tenant, keys, rest, r.hash)
    ensures ChainReport(p, tenant, [r] + rest, prev)
         == ChainErrors(p, tenant, r, prev) + ChainReport(p, tenant, rest, r.hash)
    ensures SignatureReport(p, tenant, keys, [r] + rest)
         == SignatureErrors(p, tenant, r, keys) + SignatureReport(p, tenant, keys, rest)
  {
    hide ChainErrors, SignatureErrors;
    assert ([r] + rest)[1..] == rest;
  }

  lemma {:induction false} ChainConcat(p: Primitives, tenant: string, a: seq<Row>, b: seq<Row>, prev: string)
    ensures ChainReport(p, tenant, a + b, prev)
         == ChainReport(p, tenant, a, prev) + ChainReport(p, tenant, b, EndHash(a, prev))
  {
    if a == [] {
      assert a + b == b;
    } else {
      hide ChainErrors, ChainReport;
      var r, rest := a[0], a[1..];
      ghost var any := AuditKeys([], [], [], []);
      assert a == [r] + rest && a + b == [r] + (rest + b);
      assert EndHash(rest, r.hash) == EndHash(a, prev);
      hide EndHash;
      ChainConcat(p, tenant, rest, b, r.hash);
      ReportCons(p, tenant, any, r, rest, prev);
      ReportCons(p, tenant, any, r, rest + b, prev);
      Associative(ChainErrors(p, tenant, r, prev), ChainReport(p, tenant, rest, r.hash),
                  ChainReport(p, tenant, b, EndHash(a, prev)));
    }
  }

  lemma {:induction false} ReportConcat(p: Primitives, tenant: string, keys: AuditKeys,
                                        a: seq<Row>, b: seq<Row>, prev: string)
    ensures Report(p, tenant, keys, a + b, prev)
         == Report(p, tenant, keys, a, prev) + Report(p, tenant, keys, b, EndHash(a, prev))
  {
    if a == [] {
      assert a + b == b;
    } else {
      hide ChainErrors, SignatureErrors, Report;
      var r, rest := a[0], a[1..];
      assert a == [r] + rest && a + b == [r] + (rest + b);
      assert EndHash(rest, r.hash) == EndHash(a, prev);
      hide EndHash;
      ReportConcat(p, tenant, keys, rest, b, r.hash);
      ReportCons(p, tenant, keys, r, rest, prev);
      ReportCons(p, tenant, keys, r, rest + b, prev);
      Associative(ChainErrors(p, tenant, r, prev) + SignatureErrors(p, tenant, r, keys),
                  Report(p, tenant, keys, rest, r.hash), Report(p, tenant, keys, b, EndHash(a, prev)));
    }
  }

  // ------------------------------------------------------- agreement

  /** The signature errors of a report, or the others, in order. */
  function Only(errors: seq<VerifyError>, signature: bool): seq<VerifyError> {
    if errors == [] then []
    else (if errors[0].SignatureFailed? == signature then [errors[0]] else []) + Only(errors[1..], signature)
  }

  lemma OnlyCons(e: VerifyError, rest: seq<VerifyError>, signature: bool)
    ensures Only([e] + rest, signature)
         == (if e.SignatureFailed? == signature then [e] else []) + Only(rest, signature)
  {
    assert ([e] + rest)[1..] == rest;
  }

  lemma {:induction false} OnlyConcat(a: seq<VerifyError>, b: seq<VerifyError>, signature: bool)
    ensures Only(a + b, signature) == Only(a, signature) + Only(b, signature)
  {
    if a == [] {
      assert a + b == b;
    } else {
      hide Only;
      var e, rest := a[0], a[1..];
      assert a == [e] + rest && a + b == [e] + (rest + b);
      OnlyConcat(rest, b, signature);
      OnlyCons(e, rest, signature);
      OnlyCons(e, rest + b, signature);
    }
  }

  lemma OnlyOne(e: VerifyError, signature: bool)
    ensures Only([e], signature) == if e.SignatureFailed? == signature then [e] else []
  {
    assert [e][1..] == [];
  }

  lemma RowErrorsSplit(p: Primitives, tenant: string, keys: AuditKeys, r: Row, prev: string)
    ensures Only(ChainErrors(p, tenant, r, prev), false) == ChainErrors(p, tenant, r, prev)
    ensures Only(ChainErrors(p, tenant, r, prev), true) == []
    ensures Only(SignatureErrors(p, tenant, r, keys), true) == SignatureErrors(p, tenant, r, keys)
    ensures Only(SignatureErrors(p, tenant, r, keys), false) == []
  {
    hide RowMessage, Verify;
    var broken := ChainBroken(r.number, prev, r.prevHash);
    var mismatch := HashMismatch(r.number, r.hash, p.sha(RowMessage(tenant, r)));
    OnlyOne(broken, false);
    OnlyOne(broken, true);
    OnlyOne(mismatch, false);
    OnlyOne(mismatch, true);
    OnlyConcat([broken], [mismatch], false);
    OnlyConcat([broken], [mismatch], true);
    OnlyOne(SignatureFailed(r.number), false);
    OnlyOne(SignatureFailed(r.number), true);
  }

  lemma OnlyConcat3(a: seq<VerifyError>, b: seq<VerifyError>, c: seq<VerifyError>, signature: bool)
    ensures Only(a + b + c, signature) == Only(a, signature) + Only(b, signature) + Only(c, signature)
  {
    hide Only;
    OnlyConcat(a, b, signature);
    OnlyConcat(a + b, c, signature);
  }

  /** The single walk of `verify_with_pool` reports, in order, exactly the
      chain errors of the chain pass and the failures of the signature pass. */
  lemma {:induction false} ReportSplits(p: Primitives, tenant: string, keys: AuditKeys, rows: seq<Row>, prev: string)
    ensures Only(Report(p, tenant, keys, rows, prev), false) == ChainReport(p, tenant, rows, prev)
    ensures Only(Report(p, tenant, keys, rows, prev), true) == SignatureReport(p, tenant, keys, rows)
  {
    if rows != [] {
      hide ChainErrors, SignatureErrors, Only, Report, ChainReport, SignatureReport;
      var r, rest := rows[0], rows[1..];
      var c, s := ChainErrors(p, tenant, r, prev), SignatureErrors(p, tenant, r, keys);
      var after := Report(p, tenant, keys, rest, r.hash);
      assert rows == [r] + rest;
      ReportCons(p, tenant, keys, r, rest, prev);
      ReportSplits(p, tenant, keys, rest, r.hash);
      RowErrorsSplit(p, tenant, keys, r, prev);
      OnlyConcat3(c, s, after, false);
      EmptyUnit(c);
      OnlyConcat3(c, s, after, true);
      EmptyUnit(s);
    }
  }

  lemma {:induction false} OnlyLosesNothing(errors: seq<VerifyError>)
    ensures multiset(errors) == multiset(Only(errors, false)) + multiset(Only(errors, true))
  {
    if errors != [] {
      OnlyLosesNothing(errors[1..]);
      assert errors == [errors[0]] + errors[1..];
    }
  }

  /** With the same keys `verify_tenant` and `verify_with_pool` find the same
      errors and reach the same verdict; without keys `verify_tenant` agrees
      with the offline verifier, which clears a log exactly when its full
      report holds nothing but signature failures. */
  lemma VerifiersAgree(p: Primitives, tenant: string, keys: AuditKeys, rows: seq<Row>)
    ensures var report := Report(p, tenant, keys, rows, ZERO_HASH);
            var twoPass := ChainReport(p, tenant, rows, ZERO_HASH) + SignatureReport(p, tenant, keys, rows);
            && multiset(report) == multiset(twoPass)
            && (report == [] <==> twoPass == [])
    ensures ChainReport(p, tenant, rows, ZERO_HASH) == []
            <==> forall e :: e in Report(p, tenant, keys, rows, ZERO_HASH) ==> e.SignatureFailed?
  {
    hide Report, ChainReport, SignatureReport;
    var report := Report(p, tenant, keys, rows, ZERO_HASH);
    ReportSplits(p, tenant, keys, rows, ZERO_HASH);
    OnlyLosesNothing(report);
    OnlyEmpty(report);
    if report == [] {
      assert Only(report, false) == [];
    } else {
      assert report[0] in multiset(report);
    }
  }

  lemma {:induction false} OnlyEmpty(errors: seq<VerifyError>)
    ensures Only(errors, false) == [] <==> forall e :: e in errors ==> e.SignatureFailed?
  {
    if errors != [] {
      OnlyEmpty(errors[1..]);
      assert errors == [errors[0]] + errors[1..];
    }
  }

  // ---------------------------------------------------- localisation

  /** A clean log: `verify_with_pool` reports nothing. */
  predicate Clean(p: Primitives, tenant: string, keys: AuditKeys, rows: seq<Row>) {
    Report(p, tenant, keys, rows, ZERO_HASH) == []
  }

  /** A clean log around one of its rows. */
  lemma CleanAround(p: Primitives, tenant: string, keys: AuditKeys, a: seq<Row>, r: Row, b: seq<Row>)
    requires Clean(p, tenant, keys, a + [r] + b)
    ensures Report(p, tenant, keys, a, ZERO_HASH) == []
    ensures r.prevHash == EndHash(a, ZERO_HASH)
    ensures p.sha(RowMessage(tenant, r)) == r.hash
    ensures Verify(p.schemes, keys, RowMessage(tenant, r), r.sig)
    ensures Report(p, tenant, keys, b, r.hash) == []
  {
    hide Verify, RowMessage;
    ReportConcat(p, tenant, keys, a + [r], b, ZERO_HASH);
    ReportConcat(p, tenant, keys, a, [r], ZERO_HASH);
    var prev := EndHash(a, ZERO_HASH);
    assert Report(p, tenant, keys, [r], prev)
        == ChainErrors(p, tenant, r, prev) + SignatureErrors(p, tenant, r, keys) + [];
  }

  /** The report of a log with one row put in the place of another. */
  lemma ReportAround(p: Primitives, tenant: string, keys: AuditKeys, a: seq<Row>, r: Row, b: seq<Row>)
    requires Report(p, tenant, keys, a, ZERO_HASH) == []
    ensures Report(p, tenant, keys, a + [r] + b, ZERO_HASH)
         == ChainErrors(p, tenant, r, EndHash(a, ZERO_HASH)) + SignatureErrors(p, tenant, r, keys)
            + Report(p, tenant, keys, b, r.hash)
  {
    hide ChainErrors, SignatureErrors;
    ReportConcat(p, tenant, keys, a + [r], b, ZERO_HASH);
    ReportConcat(p, tenant, keys, a, [r], ZERO_HASH);
    var prev := EndHash(a, ZERO_HASH);
    assert Report(p, tenant, keys, [r], prev)
        == ChainErrors(p, tenant, r, prev) + SignatureErrors(p, tenant, r, keys) + [];
  }

  /** Only the first row of what follows sees a changed hash before it. */
  lemma EntryChanged(p: Primitives, tenant: string, keys: AuditKeys, b: seq<Row>, prev: string, prev': string)
    requires Report(p, tenant, keys, b, prev) == []
    ensures Report(p, tenant, keys, b, prev')
         == if b != [] && prev' != prev then [ChainBroken(b[0].number, prev', prev)] else []
  {
    hide Verify, RowMessage;
    if b != [] {
      assert b[0].prevHash == prev;
      assert Report(p, tenant, keys, b[1..], b[0].hash) == [];
    }
  }

  /** A changed payload is reported at its own row and nowhere else: as a hash
      mismatch, unless the old and the new message collide. */
  lemma PayloadChanged(p: Primitives, tenant: string, keys: AuditKeys, a: seq<Row>, r: Row, b: seq<Row>,
                       payload: string)
    requires Clean(p, tenant, keys, a + [r] + b)
    requires payload != r.payload
    ensures var r' := r.(payload := payload);
            var was, now := RowMessage(tenant, r), RowMessage(tenant, r');
            && was != now
            && Report(p, tenant, keys, a + [r'] + b, ZERO_HASH)
               == (if p.sha(now) == p.sha(was) then [] else [HashMismatch(r.number, r.hash, p.sha(now))])
                  + (if Verify(p.schemes, keys, now, r.sig) then [] else [SignatureFailed(r.number)])
  {
    var r' := r.(payload := payload);
    CleanAround(p, tenant, keys, a, r, b);
    ReportAround(p, tenant, keys, a, r', b);
    if RowMessage(tenant, r) == RowMessage(tenant, r') {
      MessageParts(r.ts, tenant, r.machine, r.event, r.payload, r.prevHash);
      MessageParts(r.ts, tenant, r.machine, r.event, payload, r.prevHash);
      PayloadIsRead(r.ts + "|" + tenant + "|" + r.machine + "|" + r.event + "|", r.payload, payload, r.prevHash);
    }
    hide Verify, RowMessage, Report;
  }

  lemma MessageParts(ts: string, tenant: string, machine: string, event: string, payload: string, prevHash: string)
    ensures Message(ts, tenant, machine, event, payload, prevHash)
         == (ts + "|" + tenant + "|" + machine + "|" + event + "|") + payload + ("|" + prevHash)
  {
    var head := ts + "|" + tenant + "|" + machine + "|" + event + "|";
    assert head + payload + "|" + prevHash == head + payload + ("|" + prevHash);
  }

  lemma PayloadIsRead(head: string, x: string, y: string, prevHash: string)
    ensures head + x + ("|" + prevHash) == head + y + ("|" + prevHash) ==> x == y
  {
    var tail := "|" + prevHash;
    if head + x + tail == head + y + tail {
      assert |x| == |y|;
      assert x == (head + x + tail)[|head|..|head| + |x|];
      assert y == (head + y + tail)[|head|..|head| + |y|];
    }
  }

  /** A changed stored hash is a mismatch at its row and breaks the chain at
      the next row, and nothing else is reported. */
  lemma HashChanged(p: Primitives, tenant: string, keys: AuditKeys, a: seq<Row>, r: Row, b: seq<Row>, hash: string)
    requires Clean(p, tenant, keys, a + [r] + b)
    requires hash != r.hash
    ensures Report(p, tenant, keys, a + [r.(hash := hash)] + b, ZERO_HASH)
         == [HashMismatch(r.number, hash, r.hash)]
            + if b != [] then [ChainBroken(b[0].number, hash, r.hash)] else []
  {
    var r', prev := r.(hash := hash), EndHash(a, ZERO_HASH);
    hide Verify, RowMessage, Report, EndHash;
    CleanAround(p, tenant, keys, a, r, b);
    ReportAround(p, tenant, keys, a, r', b);
    EntryChanged(p, tenant, keys, b, r.hash, hash);
    SameMessage(tenant, r, hash);
    assert ChainErrors(p, tenant, r', prev) == [HashMismatch(r.number, hash, r.hash)];
    assert SignatureErrors(p, tenant, r', keys) == [];
    hide ChainErrors, SignatureErrors;
    EmptyUnit([HashMismatch(r.number, hash, r.hash)]);
  }

  lemma SameMessage(tenant: string, r: Row, hash: string)
    ensures RowMessage(tenant, r.(hash := hash)) == RowMessage(tenant, r)
  {
  }

  /** A deleted row is noticed only at its successor, and only if its hash
      differs from its predecessor's; deleting the newest rows is never
      noticed. */
  lemma RowDeleted(p: Primitives, tenant: string, keys: AuditKeys, a: seq<Row>, r: Row, b: seq<Row>)
    requires Clean(p, tenant, keys, a + [r] + b)
    ensures Report(p, tenant, keys, a + b, ZERO_HASH)
         == if b != [] && r.hash != r.prevHash then [ChainBroken(b[0].number, r.prevHash, r.hash)] else []
    ensures Clean(p, tenant, keys, a)
  {
    CleanAround(p, tenant, keys, a, r, b);
    ReportConcat(p, tenant, keys, a, b, ZERO_HASH);
    EntryChanged(p, tenant, keys, b, r.hash, r.prevHash);
    hide Verify, RowMessage, Report;
  }

  // ------------------------------------------------- tamper evidence

  predicate PipeFree(s: string) {
    '|' !in s
  }

  /** The first pipe separates. */
  lemma {:induction false} FirstPipe(a: string, x: string, b: string, y: string)
    requires PipeFree(a) && PipeFree(b)
    requires a + "|" + x == b + "|" + y
    ensures a == b && x == y
  {
    PipeAt(a, x);
    PipeAt(b, y);
    var s, t := a + "|" + x, b + "|" + y;
    assert |a| == |b|;
    assert a == s[..|a|] && b == t[..|b|];
    assert x == s[|a| + 1..] && y == t[|b| + 1..];
  }

  lemma PipeAt(a: string, x: string)
    requires PipeFree(a)
    ensures (a + "|" + x)[|a|] == '|'
    ensures forall i :: 0 <= i < |a| ==> (a + "|" + x)[i] != '|'
  {
    var s := a + "|" + x;
    assert forall i :: 0 <= i < |a| ==> s[i] == a[i];
  }

  lemma Cancel(a: string, x: string, y: string)
    requires a + x == a + y
    ensures x == y
  {
    assert x == (a + x)[|a|..] && y == (a + y)[|a|..];
  }

  /** One message means the same fields when the first four of both entries hold
      no pipe, the tenant only if it is not known to be the same. The payloads
      may hold any, because the last field has a fixed length. */
  lemma MessageInjective(ts: string, t: string, m: string, e: string, pay: string, prev: string,
                         ts': string, t': string, m': string, e': string, pay': string, prev': string)
    requires PipeFree(ts) && PipeFree(m) && PipeFree(e)
    requires PipeFree(ts') && PipeFree(m') && PipeFree(e')
    requires t == t' || (PipeFree(t) && PipeFree(t'))
    requires |prev| == |prev'|
    requires Message(ts, t, m, e, pay, prev) == Message(ts', t', m', e', pay', prev')
    ensures ts == ts' && t == t' && m == m' && e == e' && pay == pay' && prev == prev'
  {
    Nested(ts, t, m, e, pay, prev);
    Nested(ts', t', m', e', pay', prev');
    var z, z' := pay + "|" + prev, pay' + "|" + prev';
    FirstPipe(ts, t + "|" + (m + "|" + (e + "|" + z)), ts', t' + "|" + (m' + "|" + (e' + "|" + z')));
    if t == t' {
      Cancel(t + "|", m + "|" + (e + "|" + z), m' + "|" + (e' + "|" + z'));
    } else {
      FirstPipe(t, m + "|" + (e + "|" + z), t', m' + "|" + (e' + "|" + z'));
    }
    FirstPipe(m, e + "|" + z, m', e' + "|" + z');
    FirstPipe(e, z, e', z');
    assert |pay| == |pay'|;
    assert pay == z[..|pay|] && pay' == z'[..|pay'|];
    assert prev == z[|pay| + 1..] && prev' == z'[|pay'| + 1..];
  }

  lemma Nested(ts: string, t: string, m: string, e: string, pay: string, prev: string)
    ensures Message(ts, t, m, e, pay, prev) == ts + "|" + (t + "|" + (m + "|" + (e + "|" + (pay + "|" + prev))))
  {
    var z := pay + "|" + prev;
    Associative(e + "|", pay, "|" + prev);
    assert pay + ("|" + prev) == z;
    var e1 := e + "|" + z;
    var m1 := m + "|" + e1;
    assert ts + "|" + t + "|" + m + "|" + e + "|" + pay + "|" + prev
        == ts + "|" + t + "|" + m + "|" + e + "|" + z;
    assert ts + "|" + t + "|" + m + "|" + e + "|" + z == ts + "|" + t + "|" + m + "|" + e1;
    assert ts + "|" + t + "|" + m + "|" + e1 == ts + "|" + t + "|" + m1;
  }

  /** With a pipe in the machine or the event the fields are not determined:
      for all strings, two different rows share one message. */
  lemma PipesConfuse(ts: string, t: string, a: string, b: string, c: string, pay: string, prev: string)
    ensures Message(ts, t, a + "|" + b, c, pay, prev) == Message(ts, t, a, b + "|" + c, pay, prev)
    ensures a + "|" + b != a
  {
    var head := ts + "|" + t + "|";
    assert head + (a + "|" + b) + "|" + c == head + a + "|" + (b + "|" + c);
    assert |a + "|" + b| > |a|;
  }

  /** So does a pipe in the payload: its first part moves into the event. */
  lemma PayloadPipeConfuses(ts: string, t: string, m: string, e: string, x: string, y: string, prev: string)
    ensures Message(ts, t, m, e, x + "|" + y, prev) == Message(ts, t, m, e + "|" + x, y, prev)
    ensures e + "|" + x != e
  {
    var head := ts + "|" + t + "|" + m + "|";
    assert head + e + "|" + (x + "|" + y) == head + (e + "|" + x) + "|" + y;
    assert |e + "|" + x| > |e|;
  }

  function Pipes(s: string): nat {
    if s == "" then 0 else (if s[0] == '|' then 1 else 0) + Pipes(s[1..])
  }

  lemma {:induction false} PipesConcat(a: string, b: string)
    ensures Pipes(a + b) == Pipes(a) + Pipes(b)
  {
    if a == "" {
      assert a + b == b;
    } else {
      PipesConcat(a[1..], b);
      assert (a + b)[1..] == a[1..] + b;
    }
  }

  lemma {:induction false} NoPipes(s: string)
    ensures Pipes(s) == 0 <==> PipeFree(s)
  {
    if s != "" {
      NoPipes(s[1..]);
      assert s == [s[0]] + s[1..];
    }
  }

  lemma PipesAround(a: string, b: string)
    ensures Pipes(a + "|" + b) == Pipes(a) + 1 + Pipes(b)
  {
    PipesConcat(a + "|", b);
    PipesConcat(a, "|");
    assert Pipes("|") == 1;
  }

  lemma MessagePipes(ts: string, t: string, m: string, e: string, pay: string, prev: string)
    ensures Pipes(Message(ts, t, m, e, pay, prev))
         == Pipes(ts) + Pipes(t) + Pipes(m) + Pipes(e) + Pipes(pay) + Pipes(prev) + 5
  {
    hide Pipes;
    PipesAround(ts, t);
    PipesAround(ts + "|" + t, m);
    PipesAround(ts + "|" + t + "|" + m, e);
    PipesAround(ts + "|" + t + "|" + m + "|" + e, pay);
    PipesAround(ts + "|" + t + "|" + m + "|" + e + "|" + pay, prev);
  }

  /** The last field is read back by its length. */
  lemma PrevIsRead(ts: string, t: string, m: string, e: string, pay: string, prev: string,
                   ts': string, m': string, e': string, pay': string, prev': string)
    requires Message(ts', t, m', e', pay', prev') == Message(ts, t, m, e, pay, prev) && |prev'| == |prev|
    ensures prev' == prev
  {
    var s, s' := Message(ts, t, m, e, pay, prev), Message(ts', t, m', e', pay', prev');
    assert prev == s[|s| - |prev|..] && prev' == s'[|s'| - |prev'|..];
  }

  /** Against fields without a pipe nothing else has the same message, whatever
      it holds: a pipe more would show. */
  lemma OnlyReading(ts: string, t: string, m: string, e: string, pay: string, prev: string,
                    ts': string, m': string, e': string, pay': string, prev': string)
    requires PipeFree(ts) && PipeFree(m) && PipeFree(e) && PipeFree(pay) && |prev'| == |prev|
    requires Message(ts', t, m', e', pay', prev') == Message(ts, t, m, e, pay, prev)
    ensures ts' == ts && m' == m && e' == e && pay' == pay && prev' == prev
  {
    hide *;
    PrevIsRead(ts, t, m, e, pay, prev, ts', m', e', pay', prev');
    MessagePipes(ts, t, m, e, pay, prev);
    MessagePipes(ts', t, m', e', pay', prev');
    NoPipes(ts);
    NoPipes(m);
    NoPipes(e);
    NoPipes(pay);
    NoPipes(ts');
    NoPipes(m');
    NoPipes(e');
    MessageInjective(ts, t, m, e, pay, prev, ts', t, m', e', pay', prev');
  }

  predicate NoOtherReading(ts: string, t: string, m: string, e: string, pay: string, prev: string,
                           ts': string, m': string, e': string, pay': string)
  {
    Message(ts', t, m', e', pay', prev) == Message(ts, t, m, e, pay, prev) ==>
      ts' == ts && m' == m && e' == e && pay' == pay
  }

  lemma AtPipe(s: string) returns (x: string, y: string)
    requires !PipeFree(s)
    ensures s == x + "|" + y
  {
    var k :| 0 <= k < |s| && s[k] == '|';
    x, y := s[..k], s[k + 1..];
  }

  /** Exactly then: within one tenant's log and behind one previous hash, the
      message determines the time, machine, event and payload if and only if
      the last three hold no pipe. */
  lemma DeterminedIffPipeFree(ts: string, t: string, m: string, e: string, pay: string, prev: string)
    requires PipeFree(ts)
    ensures (forall ts', m', e', pay' :: NoOtherReading(ts, t, m, e, pay, prev, ts', m', e', pay'))
            <==> PipeFree(m) && PipeFree(e) && PipeFree(pay)
  {
    hide Message, PipeFree;
    if PipeFree(m) && PipeFree(e) && PipeFree(pay) {
      forall ts', m', e', pay'
        ensures NoOtherReading(ts, t, m, e, pay, prev, ts', m', e', pay')
      {
        if Message(ts', t, m', e', pay', prev) == Message(ts, t, m, e, pay, prev) {
          OnlyReading(ts, t, m, e, pay, prev, ts', m', e', pay', prev);
        }
      }
    } else {
      var m', e', pay' := OtherReading(ts, t, m, e, pay, prev);
      assert !NoOtherReading(ts, t, m, e, pay, prev, ts, m', e', pay');
    }
  }

  lemma OtherReading(ts: string, t: string, m: string, e: string, pay: string, prev: string)
    returns (m': string, e': string, pay': string)
    requires !(PipeFree(m) && PipeFree(e) && PipeFree(pay))
    ensures Message(ts, t, m', e', pay', prev) == Message(ts, t, m, e, pay, prev)
    ensures (m', e', pay') != (m, e, pay)
  {
    hide Message, PipeFree;
    m', e', pay' := m, e, pay;
    if !PipeFree(m) {
      var x, y := AtPipe(m);
      PipesConfuse(ts, t, x, y, e, pay, prev);
      m', e' := x, y + "|" + e;
    } else if !PipeFree(e) {
      var x, y := AtPipe(e);
      PipesConfuse(ts, t, m, x, y, pay, prev);
      m', e' := m + "|" + x, y;
    } else {
      var x, y := AtPipe(pay);
      PayloadPipeConfuses(ts, t, m, e, x, y, prev);
      e', pay' := e + "|" + x, y;
    }
  }

  /** What two clean logs with the same last hash prove: that they are the same
      log, or something that a sound hash function does not have. */
  datatype Evidence = Same | Collision(first: string, second: string) | ZeroPreimage(message: string)

  function Compare(tenant: string, a: seq<Row>, b: seq<Row>): Evidence {
    if a == [] && b == [] then Same
    else if a == [] then ZeroPreimage(RowMessage(tenant, b[|b| - 1]))
    else if b == [] then ZeroPreimage(RowMessage(tenant, a[|a| - 1]))
    else
      var x, y := RowMessage(tenant, a[|a| - 1]), RowMessage(tenant, b[|b| - 1]);
      if x != y then Collision(x, y) else Compare(tenant, a[..|a| - 1], b[..|b| - 1])
  }

  predicate HeaderIsPipeFree(r: Row) {
    PipeFree(r.ts) && PipeFree(r.machine) && PipeFree(r.event)
  }

  predicate RowIsPipeFree(r: Row) {
    HeaderIsPipeFree(r) && PipeFree(r.payload)
  }

  /** The columns under the hash. */
  predicate SameEntry(r: Row, r': Row) {
    r.ts == r'.ts && r.machine == r'.machine && r.event == r'.event && r.payload == r'.payload
    && r.prevHash == r'.prevHash && r.hash == r'.hash
  }

  /** The rows stand at the same place of the chain, and are the same entry if
      one of them holds no pipe at all, or both hold none before the payload. */
  predicate SameUpToPipes(tenant: string, r: Row, r': Row) {
    && RowMessage(tenant, r) == RowMessage(tenant, r') && r.prevHash == r'.prevHash && r.hash == r'.hash
    && (RowIsPipeFree(r) || RowIsPipeFree(r') || (HeaderIsPipeFree(r) && HeaderIsPipeFree(r')) ==> SameEntry(r, r'))
  }

  lemma SameMessageSameEntry(tenant: string, r: Row, r': Row)
    requires RowMessage(tenant, r) == RowMessage(tenant, r') && r.hash == r'.hash && |r.prevHash| == |r'.prevHash|
    ensures r.prevHash == r'.prevHash
    ensures SameUpToPipes(tenant, r, r')
  {
    hide Message, PipeFree;
    PrevIsRead(r.ts, tenant, r.machine, r.event, r.payload, r.prevHash,
               r'.ts, r'.machine, r'.event, r'.payload, r'.prevHash);
    if RowIsPipeFree(r) {
      OnlyReading(r.ts, tenant, r.machine, r.event, r.payload, r.prevHash,
                  r'.ts, r'.machine, r'.event, r'.payload, r'.prevHash);
    } else if RowIsPipeFree(r') {
      OnlyReading(r'.ts, tenant, r'.machine, r'.event, r'.payload, r'.prevHash,
                  r.ts, r.machine, r.event, r.payload, r.prevHash);
    } else if HeaderIsPipeFree(r) && HeaderIsPipeFree(r') {
      MessageInjective(r.ts, tenant, r.machine, r.event, r.payload, r.prevHash,
                       r'.ts, tenant, r'.machine, r'.event, r'.payload, r'.prevHash);
    }
  }

  /** The last row of a log that passes the chain and hash checks. */
  lemma LastOfChain(p: Primitives, tenant: string, rows: seq<Row>)
    requires rows != []
    requires ChainReport(p, tenant, rows, ZERO_HASH) == []
    ensures var front, last := rows[..|rows| - 1], rows[|rows| - 1];
            && ChainReport(p, tenant, front, ZERO_HASH) == []
            && last.prevHash == EndHash(front, ZERO_HASH)
            && last.hash == p.sha(RowMessage(tenant, last))
  {
    hide RowMessage;
    var front, last := rows[..|rows| - 1], rows[|rows| - 1];
    assert rows == front + [last];
    ChainConcat(p, tenant, front, [last], ZERO_HASH);
    var prev := EndHash(front, ZERO_HASH);
    assert ChainReport(p, tenant, [last], prev) == ChainErrors(p, tenant, last, prev) + [];
  }

  lemma {:induction false} EndHashLength(p: Primitives, tenant: string, rows: seq<Row>)
    requires forall m :: |p.sha(m)| == 64
    requires ChainReport(p, tenant, rows, ZERO_HASH) == []
    ensures |EndHash(rows, ZERO_HASH)| == 64
  {
    if rows != [] {
      LastOfChain(p, tenant, rows);
    }
  }

  /** Tamper evidence: two logs that pass the chain and hash checks and end in
      the same hash agree row by row, up to the pipes, or `Compare` exhibits two
      different messages with the same hash or a message that hashes to the
      initial zeros. */
  lemma {:induction false} TamperEvidence(p: Primitives, tenant: string, a: seq<Row>, b: seq<Row>)
    requires forall m :: |p.sha(m)| == 64
    requires ChainReport(p, tenant, a, ZERO_HASH) == [] && ChainReport(p, tenant, b, ZERO_HASH) == []
    requires EndHash(a, ZERO_HASH) == EndHash(b, ZERO_HASH)
    ensures match Compare(tenant, a, b)
            case Same => |a| == |b| && forall i :: 0 <= i < |a| ==> SameUpToPipes(tenant, a[i], b[i])
            case Collision(x, y) => x != y && p.sha(x) == p.sha(y)
            case ZeroPreimage(x) => p.sha(x) == ZERO_HASH
  {
    hide ChainReport, SameUpToPipes, RowMessage;
    if a != [] {
      LastOfChain(p, tenant, a);
    }
    if b != [] {
      LastOfChain(p, tenant, b);
    }
    if a != [] && b != [] {
      var x, y := a[|a| - 1], b[|b| - 1];
      var front, front' := a[..|a| - 1], b[..|b| - 1];
      if RowMessage(tenant, x) == RowMessage(tenant, y) {
        EndHashLength(p, tenant, front);
        EndHashLength(p, tenant, front');
        SameMessageSameEntry(tenant, x, y);
        TamperEvidence(p, tenant, front, front');
      }
    }
  }

  // ---------------------------------------------- rewriting one row

  /** Another row under the same hash, signature and place in the chain. */
  predicate Rewrites(r: Row, r': Row) {
    && r' != r
    && r' == r.(ts := r'.ts, machine := r'.machine, event := r'.event, payload := r'.payload)
  }

  predicate SilentlyRewrites(tenant: string, r: Row, r': Row) {
    Rewrites(r, r') && RowMessage(tenant, r') == RowMessage(tenant, r)
  }

  /** A rewritten row is accepted exactly when its message has the stored hash
      and the stored signature. */
  lemma RewriteIsCleanIff(p: Primitives, tenant: string, keys: AuditKeys, a: seq<Row>, r: Row, b: seq<Row>, r': Row)
    requires Clean(p, tenant, keys, a + [r] + b) && Rewrites(r, r')
    ensures Clean(p, tenant, keys, a + [r'] + b)
            <==> && p.sha(RowMessage(tenant, r')) == p.sha(RowMessage(tenant, r))
                 && Verify(p.schemes, keys, RowMessage(tenant, r'), r.sig)
    ensures SilentlyRewrites(tenant, r, r') ==> Clean(p, tenant, keys, a + [r'] + b)
  {
    hide Verify, RowMessage, Report;
    CleanAround(p, tenant, keys, a, r, b);
    ReportAround(p, tenant, keys, a, r', b);
  }

  /** A row of a clean log can be rewritten without a new message, and so under
      an empty report, exactly when its machine, event or payload holds a pipe;
      any other rewriting that goes unreported exhibits a collision. */
  lemma RewritableIffPipes(p: Primitives, tenant: string, keys: AuditKeys, a: seq<Row>, r: Row, b: seq<Row>)
    requires Clean(p, tenant, keys, a + [r] + b) && PipeFree(r.ts)
    ensures (exists r' :: SilentlyRewrites(tenant, r, r') && Clean(p, tenant, keys, a + [r'] + b))
            <==> !PipeFree(r.machine) || !PipeFree(r.event) || !PipeFree(r.payload)
    ensures forall r' :: Rewrites(r, r') && Clean(p, tenant, keys, a + [r'] + b) && !SilentlyRewrites(tenant, r, r') ==>
              && RowMessage(tenant, r') != RowMessage(tenant, r)
              && p.sha(RowMessage(tenant, r')) == p.sha(RowMessage(tenant, r))
  {
    hide Clean, Message, PipeFree;
    if !PipeFree(r.machine) || !PipeFree(r.event) || !PipeFree(r.payload) {
      var m, e, pay := OtherReading(r.ts, tenant, r.machine, r.event, r.payload, r.prevHash);
      var r' := r.(machine := m, event := e, payload := pay);
      assert SilentlyRewrites(tenant, r, r');
      RewriteIsCleanIff(p, tenant, keys, a, r, b, r');
    } else {
      forall r' | SilentlyRewrites(tenant, r, r')
        ensures false
      {
        OnlyReading(r.ts, tenant, r.machine, r.event, r.payload, r.prevHash,
                    r'.ts, r'.machine, r'.event, r'.payload, r'.prevHash);
      }
    }
    forall r' | Rewrites(r, r') && Clean(p, tenant, keys, a + [r'] + b) && !SilentlyRewrites(tenant, r, r')
      ensures RowMessage(tenant, r') != RowMessage(tenant, r)
      ensures p.sha(RowMessage(tenant, r')) == p.sha(RowMessage(tenant, r))
    {
      RewriteIsCleanIff(p, tenant, keys, a, r, b, r');
    }
  }

  const CMD_EXEC := "cmd_exec"

  /** The payload that `exec` logs; `cmd` is the command as JSON text. */
  function CommandPayload(cmd: string, duration: string, exitCode: string): string {
    CommandFront(cmd) + CommandBack(duration, exitCode)
  }

  function CommandFront(cmd: string): string {
    "{\"cmd\":\"" + cmd
  }

  function CommandBack(duration: string, exitCode: string): string {
    "\",\"duration_ms\":" + duration + ",\"exit_code\":" + exitCode + "}"
  }

  /** A caller's command with a pipe is enough: its entry can be rewritten as one
      of another event. */
  lemma CommandPipeRewrites(p: Primitives, tenant: string, keys: AuditKeys, a: seq<Row>, r: Row, b: seq<Row>,
                            x: string, y: string, duration: string, exitCode: string)
    requires Clean(p, tenant, keys, a + [r] + b)
    requires r.event == CMD_EXEC && r.payload == CommandPayload(x + "|" + y, duration, exitCode)
    ensures var r' := r.(event := CMD_EXEC + "|" + CommandFront(x), payload := y + CommandBack(duration, exitCode));
            SilentlyRewrites(tenant, r, r') && Clean(p, tenant, keys, a + [r'] + b)
  {
    hide *;
    var front, back := CommandFront(x), y + CommandBack(duration, exitCode);
    PayloadSplits(x, y, duration, exitCode);
    PayloadPipeRewrites(tenant, r, front, back);
    RewriteIsCleanIff(p, tenant, keys, a, r, b, r.(event := r.event + "|" + front, payload := back));
  }

  lemma PayloadSplits(x: string, y: string, duration: string, exitCode: string)
    ensures CommandPayload(x + "|" + y, duration, exitCode)
         == CommandFront(x) + "|" + (y + CommandBack(duration, exitCode))
  {
    hide CommandBack;
    var back := CommandBack(duration, exitCode);
    assert CommandFront(x + "|" + y) == CommandFront(x) + "|" + y;
    Associative(CommandFront(x) + "|", y, back);
  }

  lemma PayloadPipeRewrites(tenant: string, r: Row, x: string, y: string)
    requires r.payload == x + "|" + y
    ensures var r' := r.(event := r.event + "|" + x, payload := y);
            SilentlyRewrites(tenant, r, r') && Rewrites(r, r')
  {
    PayloadPipeConfuses(r.ts, tenant, r.machine, r.event, x, y, r.prevHash);
    hide Message;
  }
}
