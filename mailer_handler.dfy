/** The batch handler of index.js: each SQS record carries one email
    `{to, subject, htmlBody, textBody?, replyTo?, from?}` that is sent with a
    single call; the handler counts successes and failures, records the
    failing records' ids, and on any failure answers with the SQS
    partial-batch-failure list so that only those records are retried. */
module MailerHandler {
  import opened Js
  import opened Ses

  /** The SendEmail parameters built for one record. `text` and `replyTo`
      are None when the parameter object has no such property. */
  datatype EmailParams = EmailParams(
    source: Value,
    toAddresses: seq<Value>,
    subject: Value,
    html: Value,
    text: Option<Value>,
    replyTo: Option<seq<Value>>)

  /** An entry of `results.errors`. */
  datatype ErrorEntry = ErrorEntry(messageId: Value, error: string)

  /** The handler's `results` object, with the parameters of every send so far. */
  datatype Tally = Tally(successful: nat, failed: nat, errors: seq<ErrorEntry>, sends: seq<EmailParams>)

  /** The record loop so far: still running, or ended because the catch block
      itself threw (the handler's promise rejects with that error). */
  datatype Progress = Running(tally: Tally) | Crashed(message: string, sendsSoFar: seq<EmailParams>)

  /** What the handler returns: the partial-batch-failure list (the
      itemIdentifier of each entry), the 200 response with the results, or
      a rejection. */
  datatype Response =
    | PartialFailure(batchItemFailures: seq<Value>)
    | Success(statusCode: int, message: string, successful: nat, failed: nat, errors: seq<ErrorEntry>)
    | Rejected(error: string)

  datatype Run = Run(response: Response, sends: seq<EmailParams>)

  const MissingFields: string := "Missing required fields: to, subject, or htmlBody"

  // ---------------------------------------------------------------------
  // One record

  /** `Array.isArray(v) ? v : [v]` */
  function AsArray(v: Value): (r: seq<Value>)
    ensures !v.Arr? ==> r == [v]
  {
    if v.Arr? then v.elems else [v]
  }

  /** Normalising an already normalised list changes nothing, and a
      non-array becomes a one-element list holding it. */
  lemma AsArrayIdempotent(v: Value)
    ensures AsArray(Arr(AsArray(v))) == AsArray(v)
    ensures v.Arr? ==> Arr(AsArray(v)) == v
  {
  }

  /** The part of the loop body before the send: parse the body, check
      `to`, `subject` and `htmlBody`, and build the parameters. */
  function Prepare(record: Value, parse: Value -> Result<Value>, fromEnv: Value): Result<EmailParams> {
    var body :- Get(record, "body");
    var message :- parse(body);
    var to :- Get(message, "to");
    var subject := Field(message, "subject");
    var html := Field(message, "htmlBody");
    if !Truthy(to) || !Truthy(subject) || !Truthy(html) then Thrown(MissingFields)
    else
      var text := Field(message, "textBody");
      var replyTo := Field(message, "replyTo");
      Ok(EmailParams(
        if Truthy(fromEnv) then fromEnv else Field(message, "from"),
        AsArray(to), subject, html,
        if Truthy(text) then Some(text) else None,
        if Truthy(replyTo) then Some(AsArray(replyTo)) else None))
  }

  /** A record for which the handler makes a send call. */
  predicate Sendable(record: Value, parse: Value -> Result<Value>) {
    && !Nullish(record)
    && parse(Field(record, "body")).Ok?
    && var message := parse(Field(record, "body")).value;
    && !Nullish(message)
    && Truthy(Field(message, "to")) && Truthy(Field(message, "subject")) && Truthy(Field(message, "htmlBody"))
  }

  /** A record is prepared exactly when it is sendable, and then: ToAddresses
      is `to` normalised to an array; Source is FROM_EMAIL when that is
      truthy and the body's `from` otherwise; the Text part is present iff
      `textBody` is truthy; ReplyToAddresses is present iff `replyTo` is
      truthy, normalised to an array. A sendable-looking body without `to`,
      `subject` or `htmlBody` fails with the missing-fields message. */
  lemma PrepareShape(record: Value, parse: Value -> Result<Value>, fromEnv: Value)
    ensures Prepare(record, parse, fromEnv).Ok? <==> Sendable(record, parse)
    ensures Sendable(record, parse) ==>
      var message := parse(Field(record, "body")).value;
      var p := Prepare(record, parse, fromEnv).value;
      && p.toAddresses == AsArray(Field(message, "to"))
      && p.source == (if Truthy(fromEnv) then fromEnv else Field(message, "from"))
      && p.subject == Field(message, "subject") && p.html == Field(message, "htmlBody")
      && (p.text.Some? <==> Truthy(Field(message, "textBody")))
      && (p.text.Some? ==> p.text.value == Field(message, "textBody"))
      && (p.replyTo.Some? <==> Truthy(Field(message, "replyTo")))
      && (p.replyTo.Some? ==> p.replyTo.value == AsArray(Field(message, "replyTo")))
    ensures
      && !Nullish(record) && parse(Field(record, "body")).Ok?
      && !Nullish(parse(Field(record, "body")).value)
      && !Sendable(record, parse)
      ==> Prepare(record, parse, fromEnv) == Thrown(MissingFields)
  {
  }

  /** The catch block: count the failure and push `{messageId, error}`;
      reading `record.messageId` throws when the record is nullish. */
  function CatchFailure(t: Tally, record: Value, message: string): Progress {
    match Get(record, "messageId")
    case Thrown(m) => Crashed(m, t.sends)
    case Ok(id) => Running(Tally(t.successful, t.failed + 1, t.errors + [ErrorEntry(id, message)], t.sends))
  }

  /** One iteration of the record loop; the reply is the one to the handler's
      |t.sends|-th call. */
  function RecordStep(t: Tally, record: Value, parse: Value -> Result<Value>, fromEnv: Value, ses: nat -> Reply): Progress {
    match Prepare(record, parse, fromEnv)
    case Thrown(message) => CatchFailure(t, record, message)
    case Ok(params) =>
      var sent := Tally(t.successful, t.failed, t.errors, t.sends + [params]);
      match ses(|t.sends|)
      case Accepted(_) => Running(sent.(successful := t.successful + 1))
      case Failed(_, message) => CatchFailure(sent, record, message)
  }

  /** The record loop over `records`. */
  function Batch(records: seq<Value>, parse: Value -> Result<Value>, fromEnv: Value, ses: nat -> Reply): Progress
    decreases |records|
  {
    if records == [] then Running(Tally(0, 0, [], []))
    else
      match Batch(records[..|records| - 1], parse, fromEnv, ses)
      case Crashed(m, sends) => Crashed(m, sends)
      case Running(t) => RecordStep(t, records[|records| - 1], parse, fromEnv, ses)
  }

  // ---------------------------------------------------------------------
  // The partial-batch-failure list

  function ErrorIds(errors: seq<ErrorEntry>): (ids: seq<Value>)
    ensures |ids| == |errors|
    ensures forall i :: 0 <= i < |errors| ==> ids[i] == errors[i].messageId
  {
    seq(|errors|, i requires 0 <= i < |errors| => errors[i].messageId)
  }

  /** `records.filter(r => errors.some(e => e.messageId === r.messageId))
      .map(r => ({itemIdentifier: r.messageId}))`, reading `messageId` of
      records already known not to be nullish. */
  function FailedItems(records: seq<Value>, errors: seq<ErrorEntry>): seq<Value> {
    if records == [] then []
    else
      var id := Field(records[0], "messageId");
      (if id in ErrorIds(errors) then [id] else []) + FailedItems(records[1..], errors)
  }

  /** The whole invocation, for the records of the event. */
  function Invocation(records: seq<Value>, parse: Value -> Result<Value>, fromEnv: Value, ses: nat -> Reply): Run {
    match Batch(records, parse, fromEnv, ses)
    case Crashed(m, sends) => Run(Rejected(m), sends)
    case Running(t) =>
      if t.failed > 0 then Run(PartialFailure(FailedItems(records, t.errors)), t.sends)
      else Run(Success(200, "Emails processed successfully", t.successful, t.failed, t.errors), t.sends)
  }

  // ---------------------------------------------------------------------
  // The handler

  /** index.js `handler`, given `event.Records`, the FROM_EMAIL setting and
      the replies of the email service. */
  method Handler(records: seq<Value>, parse: Value -> Result<Value>, fromEnv: Value, ses: nat -> Reply)
    returns (response: Response, sends: seq<EmailParams>)
    ensures Run(response, sends) == Invocation(records, parse, fromEnv, ses)
  {
    var successful: nat, failed: nat := 0, 0;
    var errors: seq<ErrorEntry> := [];
    sends := [];
    for i := 0 to |records|
      invariant Batch(records[..i], parse, fromEnv, ses) == Running(Tally(successful, failed, errors, sends))
    {
      var record := records[i];
      assert records[..i + 1][..i] == records[..i];
      var caught: Option<string> := None;
      var prepared := Prepare(record, parse, fromEnv);
      if prepared.Ok? {
        var reply := ses(|sends|);
        sends := sends + [prepared.value];
        match reply {
          case Accepted(_) => successful := successful + 1;
          case Failed(_, message) => caught := Some(message);
        }
      } else {
        caught := Some(prepared.message);
      }
      if caught.Some? {
        failed := failed + 1;
        var id := Get(record, "messageId");
        if id.Thrown? {
          response := Rejected(id.message);
          CrashPersists(records, i + 1, parse, fromEnv, ses);
          return;
        }
        errors := errors + [ErrorEntry(id.value, caught.value)];
      }
    }
    assert records[..|records|] == records;
    if failed > 0 {
      response := PartialFailure(FailedItems(records, errors));
    } else {
      response := Success(200, "Emails processed successfully", successful, failed, errors);
    }
  }

  /** Once the catch block has thrown, the remaining records are not processed. */
  lemma {:induction false} CrashPersists(records: seq<Value>, k: nat, parse: Value -> Result<Value>, fromEnv: Value, ses: nat -> Reply)
    requires k <= |records| && Batch(records[..k], parse, fromEnv, ses).Crashed?
    ensures Batch(records, parse, fromEnv, ses) == Batch(records[..k], parse, fromEnv, ses)
    decreases |records| - k
  {
    if k < |records| {
      assert records[..k + 1][..k] == records[..k];
      CrashPersists(records, k + 1, parse, fromEnv, ses);
    } else {
      assert records[..k] == records;
    }
  }

  // ---------------------------------------------------------------------
  // Properties

  /** A record whose body parses to an object without a truthy `to`,
      `subject` or `htmlBody` is counted as failed with the missing-fields
      error under its own messageId, and nothing is sent for it. */
  lemma MissingFieldsFails(t: Tally, record: Value, parse: Value -> Result<Value>, fromEnv: Value, ses: nat -> Reply)
    requires !Nullish(record) && parse(Field(record, "body")).Ok?
    requires !Nullish(parse(Field(record, "body")).value)
    requires !Sendable(record, parse)
    ensures RecordStep(t, record, parse, fromEnv, ses)
      == Running(Tally(t.successful, t.failed + 1,
                       t.errors + [ErrorEntry(Field(record, "messageId"), MissingFields)], t.sends))
  {
    PrepareShape(record, parse, fromEnv);
  }

  /** A record that does not reach the send (a body that does not parse, a
      missing field), and a send that fails, are caught: one more failure,
      one more error entry under the record's messageId, and the loop goes
      on. A sendable record is sent exactly once. */
  lemma RecordStepEffect(t: Tally, record: Value, parse: Value -> Result<Value>, fromEnv: Value, ses: nat -> Reply)
    requires !Nullish(record)
    ensures RecordStep(t, record, parse, fromEnv, ses).Running?
    ensures var u := RecordStep(t, record, parse, fromEnv, ses).tally;
      && u.successful + u.failed == t.successful + t.failed + 1
      && (u.sends == if Sendable(record, parse) then t.sends + [Prepare(record, parse, fromEnv).value] else t.sends)
      && (u.failed == t.failed ==> u.errors == t.errors)
      && (u.failed == t.failed + 1 ==>
            |u.errors| == |t.errors| + 1 && u.errors[..|t.errors|] == t.errors
            && u.errors[|t.errors|].messageId == Field(record, "messageId"))
      && (!Sendable(record, parse) ==> u.successful == t.successful && u.failed == t.failed + 1)
  {
    PrepareShape(record, parse, fromEnv);
    var u := RecordStep(t, record, parse, fromEnv, ses).tally;
    if u.failed == t.failed + 1 {
      assert u.errors[..|t.errors|] == t.errors;
    }
  }

  /** Which outcome a non-nullish record counts, and the entry a failure
      appends: a record that does not reach the send fails with the error
      it threw; a sent record succeeds exactly when the reply accepts it,
      and a rejected send fails with the reply's message. */
  lemma RecordStepOutcome(t: Tally, record: Value, parse: Value -> Result<Value>, fromEnv: Value, ses: nat -> Reply)
    requires !Nullish(record)
    ensures var u := RecordStep(t, record, parse, fromEnv, ses).tally;
      && (!Sendable(record, parse) ==>
            && u.successful == t.successful && u.failed == t.failed + 1
            && u.errors == t.errors + [ErrorEntry(Field(record, "messageId"), Prepare(record, parse, fromEnv).message)])
      && (Sendable(record, parse) && ses(|t.sends|).Accepted? ==>
            u.successful == t.successful + 1 && u.failed == t.failed && u.errors == t.errors)
      && (Sendable(record, parse) && ses(|t.sends|).Failed? ==>
            && u.successful == t.successful && u.failed == t.failed + 1
            && u.errors == t.errors + [ErrorEntry(Field(record, "messageId"), ses(|t.sends|).message)])
  {
    PrepareShape(record, parse, fromEnv);
  }

  /** The catch block throws only for a nullish record, and nothing after it is processed. */
  lemma {:induction false} BatchRunsUnlessNullish(records: seq<Value>, parse: Value -> Result<Value>, fromEnv: Value, ses: nat -> Reply)
    ensures Batch(records, parse, fromEnv, ses).Running? <==> forall i :: 0 <= i < |records| ==> !Nullish(records[i])
    decreases |records|
  {
    if records != [] {
      var front := records[..|records| - 1];
      var last := records[|records| - 1];
      BatchRunsUnlessNullish(front, parse, fromEnv, ses);
      assert forall i :: 0 <= i < |front| ==> front[i] == records[i];
      match Batch(front, parse, fromEnv, ses)
      case Crashed(_, _) =>
      case Running(t) =>
        if !Nullish(last) { RecordStepEffect(t, last, parse, fromEnv, ses); }
    }
  }

  /** After the loop, successful + failed is the number of records, there
      is one error entry per failure, and each entry carries the messageId
      of a record. */
  lemma {:induction false} BatchCounts(records: seq<Value>, parse: Value -> Result<Value>, fromEnv: Value, ses: nat -> Reply)
    requires Batch(records, parse, fromEnv, ses).Running?
    ensures var t := Batch(records, parse, fromEnv, ses).tally;
      && t.successful + t.failed == |records|
      && |t.errors| == t.failed
      && |t.sends| <= |records|
      && forall e :: e in t.errors ==> exists r :: r in records && e.messageId == Field(r, "messageId")
    decreases |records|
  {
    if records != [] {
      var front := records[..|records| - 1];
      var last := records[|records| - 1];
      BatchRunsUnlessNullish(records, parse, fromEnv, ses);
      BatchRunsUnlessNullish(front, parse, fromEnv, ses);
      assert forall i :: 0 <= i < |front| ==> front[i] == records[i];
      BatchCounts(front, parse, fromEnv, ses);
      var t := Batch(front, parse, fromEnv, ses).tally;
      RecordStepEffect(t, last, parse, fromEnv, ses);
      var u := Batch(records, parse, fromEnv, ses).tally;
      forall e | e in u.errors ensures exists r :: r in records && e.messageId == Field(r, "messageId") {
        if e in t.errors {
          var r :| r in front && e.messageId == Field(r, "messageId");
          assert r in records;
        } else {
          assert u.errors == t.errors + [u.errors[|t.errors|]];
          assert e.messageId == Field(last, "messageId");
        }
      }
    }
  }

  /** Record i failed: the loop was running before it and counted one more
      failure for it. */
  ghost predicate RecordFailed(records: seq<Value>, parse: Value -> Result<Value>, fromEnv: Value, ses: nat -> Reply, i: nat)
    requires i < |records|
  {
    && Batch(records[..i], parse, fromEnv, ses).Running?
    && Batch(records[..i + 1], parse, fromEnv, ses).Running?
    && Batch(records[..i + 1], parse, fromEnv, ses).tally.failed
       == Batch(records[..i], parse, fromEnv, ses).tally.failed + 1
  }

  /** The error entries of a prefix of the batch begin the error entries of the batch. */
  lemma {:induction false} ErrorsGrow(records: seq<Value>, k: nat, parse: Value -> Result<Value>, fromEnv: Value, ses: nat -> Reply)
    requires k <= |records| && Batch(records, parse, fromEnv, ses).Running?
    ensures Batch(records[..k], parse, fromEnv, ses).Running?
    ensures var errs := Batch(records[..k], parse, fromEnv, ses).tally.errors;
      var all := Batch(records, parse, fromEnv, ses).tally.errors;
      |errs| <= |all| && all[..|errs|] == errs
    decreases |records| - k
  {
    if k == |records| {
      assert records[..k] == records;
    } else {
      var p := records[..k + 1];
      ErrorsGrow(records, k + 1, parse, fromEnv, ses);
      assert p[..k] == records[..k];
      assert p[..|p| - 1] == records[..k] && p[|p| - 1] == records[k];
      BatchRunsUnlessNullish(p, parse, fromEnv, ses);
      BatchRunsUnlessNullish(records[..k], parse, fromEnv, ses);
      assert forall i :: 0 <= i < k ==> records[..k][i] == p[i];
      assert !Nullish(p[k]);
      var t := Batch(records[..k], parse, fromEnv, ses).tally;
      RecordStepEffect(t, records[k], parse, fromEnv, ses);
    }
  }

  lemma FailedItemsContains(records: seq<Value>, errors: seq<ErrorEntry>, x: Value)
    ensures x in FailedItems(records, errors) <==>
      x in ErrorIds(errors) && exists r :: r in records && Field(r, "messageId") == x
  {
    if records != [] {
      FailedItemsContains(records[1..], errors, x);
      if x != Field(records[0], "messageId") && exists r :: r in records && Field(r, "messageId") == x {
        var r :| r in records && Field(r, "messageId") == x;
        assert r in records[1..];
      }
    }
  }

  /** One record contributes its messageId exactly when some error entry carries it. */
  lemma FailedItemsSingle(r: Value, errors: seq<ErrorEntry>)
    ensures FailedItems([r], errors)
      == if Field(r, "messageId") in ErrorIds(errors) then [Field(r, "messageId")] else []
  {
    assert [r][1..] == [];
  }

  /** The list keeps the input order of the records and one entry per
      matching record: the list for a concatenation is the concatenation
      of the lists. */
  lemma {:induction false} FailedItemsAppend(a: seq<Value>, b: seq<Value>, errors: seq<ErrorEntry>)
    ensures FailedItems(a + b, errors) == FailedItems(a, errors) + FailedItems(b, errors)
    decreases |a|
  {
    if a == [] {
      assert a + b == b;
    } else {
      FailedItemsAppend(a[1..], b, errors);
      assert (a + b)[0] == a[0];
      assert (a + b)[1..] == a[1..] + b;
    }
  }

  /** Every record that failed is in batchItemFailures. */
  lemma FailedRecordReported(records: seq<Value>, parse: Value -> Result<Value>, fromEnv: Value, ses: nat -> Reply, i: nat)
    requires i < |records| && Batch(records, parse, fromEnv, ses).Running?
    requires RecordFailed(records, parse, fromEnv, ses, i)
    ensures Field(records[i], "messageId") in FailedItems(records, Batch(records, parse, fromEnv, ses).tally.errors)
  {
    var p := records[..i + 1];
    assert p[..|p| - 1] == records[..i] && p[|p| - 1] == records[i];
    BatchRunsUnlessNullish(records, parse, fromEnv, ses);
    var t := Batch(records[..i], parse, fromEnv, ses).tally;
    RecordStepEffect(t, records[i], parse, fromEnv, ses);
    var mine := Batch(p, parse, fromEnv, ses).tally.errors;
    assert mine[|t.errors|].messageId == Field(records[i], "messageId");
    ErrorsGrow(records, i + 1, parse, fromEnv, ses);
    var all := Batch(records, parse, fromEnv, ses).tally.errors;
    assert all[|t.errors|] == mine[|t.errors|];
    assert Field(records[i], "messageId") in ErrorIds(all) by {
      assert ErrorIds(all)[|t.errors|] == Field(records[i], "messageId");
    }
    FailedItemsContains(records, all, Field(records[i], "messageId"));
  }

  /** Whether record i failed does not depend on the records after it. */
  lemma RecordFailedPrefix(records: seq<Value>, k: nat, parse: Value -> Result<Value>, fromEnv: Value, ses: nat -> Reply, i: nat)
    requires i < k <= |records|
    ensures RecordFailed(records[..k], parse, fromEnv, ses, i) <==> RecordFailed(records, parse, fromEnv, ses, i)
  {
    assert records[..k][..i] == records[..i];
    assert records[..k][..i + 1] == records[..i + 1];
  }

  /** Each error entry was pushed for a record that failed. */
  lemma {:induction false} ErrorsFromFailedRecords(records: seq<Value>, parse: Value -> Result<Value>, fromEnv: Value, ses: nat -> Reply, e: ErrorEntry)
    requires Batch(records, parse, fromEnv, ses).Running?
    requires e in Batch(records, parse, fromEnv, ses).tally.errors
    ensures exists i :: (0 <= i < |records| && RecordFailed(records, parse, fromEnv, ses, i)
      && e.messageId == Field(records[i], "messageId"))
    decreases |records|
  {
    var n := |records| - 1;
    var front := records[..n];
    var last := records[n];
    BatchRunsUnlessNullish(records, parse, fromEnv, ses);
    BatchRunsUnlessNullish(front, parse, fromEnv, ses);
    assert forall i :: 0 <= i < |front| ==> front[i] == records[i];
    var t := Batch(front, parse, fromEnv, ses).tally;
    RecordStepEffect(t, last, parse, fromEnv, ses);
    var u := Batch(records, parse, fromEnv, ses).tally;
    if e in t.errors {
      ErrorsFromFailedRecords(front, parse, fromEnv, ses, e);
      var i :| 0 <= i < |front| && RecordFailed(front, parse, fromEnv, ses, i)
        && e.messageId == Field(front[i], "messageId");
      RecordFailedPrefix(records, n, parse, fromEnv, ses, i);
      assert RecordFailed(records, parse, fromEnv, ses, i);
    } else {
      assert u.failed == t.failed + 1;
      assert records[..n + 1] == records;
      assert RecordFailed(records, parse, fromEnv, ses, n);
      assert u.errors == t.errors + [u.errors[|t.errors|]];
      assert e.messageId == Field(records[n], "messageId");
    }
  }

  /** With pairwise distinct messageIds, every record listed in
      batchItemFailures failed. */
  lemma ReportedRecordFailed(records: seq<Value>, parse: Value -> Result<Value>, fromEnv: Value, ses: nat -> Reply, i: nat)
    requires i < |records| && Batch(records, parse, fromEnv, ses).Running?
    requires forall j, k :: 0 <= j < k < |records| ==>
      Field(records[j], "messageId") != Field(records[k], "messageId")
    requires Field(records[i], "messageId") in FailedItems(records, Batch(records, parse, fromEnv, ses).tally.errors)
    ensures RecordFailed(records, parse, fromEnv, ses, i)
  {
    var all := Batch(records, parse, fromEnv, ses).tally.errors;
    var x := Field(records[i], "messageId");
    FailedItemsContains(records, all, x);
    var n :| 0 <= n < |all| && ErrorIds(all)[n] == x;
    ErrorsFromFailedRecords(records, parse, fromEnv, ses, all[n]);
    var j :| 0 <= j < |records| && RecordFailed(records, parse, fromEnv, ses, j)
      && all[n].messageId == Field(records[j], "messageId");
    assert j == i;
  }

  /** With no failure the result is the 200 response with the counts; with
      a failure it is the partial-batch-failure list alone. */
  lemma ResponseShape(records: seq<Value>, parse: Value -> Result<Value>, fromEnv: Value, ses: nat -> Reply)
    requires forall i :: 0 <= i < |records| ==> !Nullish(records[i])
    ensures Batch(records, parse, fromEnv, ses).Running?
    ensures var t := Batch(records, parse, fromEnv, ses).tally;
      var r := Invocation(records, parse, fromEnv, ses).response;
      && (t.failed == 0 ==> r == Success(200, "Emails processed successfully", |records|, 0, []))
      && (t.failed > 0 ==> r == PartialFailure(FailedItems(records, t.errors)))
  {
    BatchRunsUnlessNullish(records, parse, fromEnv, ses);
    BatchCounts(records, parse, fromEnv, ses);
  }
}
