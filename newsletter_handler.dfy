/** The batch handler of index.mjs: for every SQS record of the event it
    decodes a newsletter `{emails, subject, html_body}` and sends it, with a
    plain-text fallback, to each address separately from one fixed sender,
    counting sent and failed emails and collecting a result line for every
    attempt and an error line for every failure. */
module NewsletterHandler {
  import opened Js
  import opened Ses
  import PlainText

  /** The sender of every email (FROM_EMAIL). */
  const FromEmail: string := "info@ticketsqueeze.com"

  /** One element of `emails`, with its string form as the template literals
      of the recipient loop write it (`${email}`). */
  datatype Recipient = Recipient(address: Value, text: string)

  /** A record body that passed validation, with its derived text body. */
  datatype Newsletter = Newsletter(recipients: seq<Recipient>, subject: Value, htmlBody: string, textBody: string)

  /** The input of one SendEmailCommand (both parts are sent with charset UTF-8). */
  datatype SendCommand = SendCommand(source: string, toAddresses: seq<Value>, subject: Value, html: string, text: string)

  /** What the handler has done so far: the two counters, the two line
      lists, and every command it has sent, in order. */
  datatype Tally = Tally(successful: nat, failed: nat, results: seq<string>, errors: seq<string>, sends: seq<SendCommand>)

  datatype Summary = Summary(successfulEmails: nat, failedEmails: nat, totalProcessed: nat)

  /** The JSON body of the response; a field that JSON.stringify leaves out
      (because it is undefined) is None. */
  datatype Body =
    | Report(message: string, summary: Summary, results: Option<seq<string>>, errors: Option<seq<string>>)
    | ServerError(error: string, eventReceived: Value, summary: Summary, resultsSoFar: seq<string>, errorsSoFar: seq<string>)

  datatype Response = Response(statusCode: int, body: Body)

  /** The response together with the commands sent while producing it. */
  datatype Run = Run(response: Response, sends: seq<SendCommand>)

  // ---------------------------------------------------------------------
  // Validation and the text fallback

  /** The envelope checks: the event is truthy and its Records property is
      a truthy array. */
  function EventRecords(event: Value): Result<seq<Value>> {
    if !Truthy(event) then Thrown("Event is null or undefined")
    else
      var records := Field(event, "Records");
      if !Truthy(records) then Thrown("Event does not contain Records property")
      else if !IsArray(records) then Thrown("Event.Records is not an array")
      else Ok(records.elems)
  }

  /** The steps of the record loop before any send: read and parse the body,
      check `emails`, `subject` and `html_body` in that order, destructure
      and derive the text body. A truthy `html_body` that is not a string has
      no `replace` method, so the derivation throws. */
  function DecodeRecord(record: Value, parse: Value -> Result<Value>): Result<Newsletter> {
    var body :- Get(record, "body");
    if !Truthy(body) then Thrown("Record does not contain body property")
    else
      var message :- parse(body);
      var emails :- Get(message, "emails");
      if !Truthy(emails) || !IsArray(emails) then Thrown("Missing or invalid emails array")
      else
        var subject := Field(message, "subject");
        if !Truthy(subject) then Thrown("Missing subject")
        else
          var html := Field(message, "html_body");
          if !Truthy(html) then Thrown("Missing html_body")
          else if !html.Str? then Thrown("html_body.replace is not a function")
          else Ok(Newsletter(Recipients(emails.elems), subject, html.s, PlainText.ToPlainText(html.s)))
  }

  /** The elements of `emails` with their string forms, computed once. */
  function Recipients(emails: seq<Value>): seq<Recipient>
    decreases |emails|
  {
    if emails == [] then []
    else Recipients(emails[..|emails| - 1]) + [Recipient(emails[|emails| - 1], ToString(emails[|emails| - 1]))]
  }

  /** Every recipient is the element of `emails` at its position, with that
      element's `String()` form. */
  lemma {:induction false} RecipientsAt(emails: seq<Value>, i: nat)
    requires i < |emails|
    ensures |Recipients(emails)| == |emails|
    ensures Recipients(emails)[i] == Recipient(emails[i], ToString(emails[i]))
    decreases |emails|
  {
    var k := |emails| - 1;
    RecipientsLength(emails[..k]);
    if i < k {
      RecipientsAt(emails[..k], i);
    }
  }

  lemma {:induction false} RecipientsLength(emails: seq<Value>)
    ensures |Recipients(emails)| == |emails|
    decreases |emails|
  {
    if emails != [] {
      RecipientsLength(emails[..|emails| - 1]);
    }
  }

  /** The shape of a record the handler sends emails for, stated on the
      record and its parsed body directly. */
  predicate WellFormed(record: Value, parse: Value -> Result<Value>) {
    && record.Obj? && "body" in record.fields && Truthy(record.fields["body"])
    && parse(record.fields["body"]).Ok?
    && var message := parse(record.fields["body"]).value;
    && message.Obj?
    && "emails" in message.fields && message.fields["emails"].Arr?
    && "subject" in message.fields && Truthy(message.fields["subject"])
    && "html_body" in message.fields && message.fields["html_body"].Str?
    && message.fields["html_body"].s != ""
  }

  /** A record is accepted exactly when it is well formed, and then the
      newsletter carries the body's own emails, subject and HTML. */
  lemma DecodeAccepts(record: Value, parse: Value -> Result<Value>)
    ensures DecodeRecord(record, parse).Ok? <==> WellFormed(record, parse)
    ensures WellFormed(record, parse) ==>
      var message := parse(record.fields["body"]).value;
      var n := DecodeRecord(record, parse).value;
      && n.recipients == Recipients(message.fields["emails"].elems)
      && n.subject == message.fields["subject"]
      && n.htmlBody == message.fields["html_body"].s
      && n.textBody == PlainText.ToPlainText(n.htmlBody)
  {
    GetReads(record, "body");
    if record.Obj? && "body" in record.fields && Truthy(record.fields["body"]) && parse(record.fields["body"]).Ok? {
      var message := parse(record.fields["body"]).value;
      GetReads(message, "emails");
      if WellFormed(record, parse) {
        var emails := message.fields["emails"];
        var html := message.fields["html_body"];
        assert Truthy(emails) && IsArray(emails) && Truthy(html);
        assert DecodeRecord(record, parse)
            == Ok(Newsletter(Recipients(emails.elems), message.fields["subject"], html.s, PlainText.ToPlainText(html.s)));
      }
    }
  }

  // ---------------------------------------------------------------------
  // Lines and error classification

  // The fixed parts of the lines and messages the recipient loop writes.
  const SentPrefix: string := "\U{2705} Sent to "
  const MessageIdPrefix: string := " (MessageId: "
  const FailedPrefix: string := "\U{274C} Failed to send to "
  const Separator: string := ": "
  const FailureMark: string := "\U{274C} "
  const RecordErrorPrefix: string := "Error processing message: "
  const RejectedPrefix: string := "Email rejected by SES: "
  const UnverifiedPrefix: string := "Domain not verified: "
  const InvalidAddressPrefix: string := "Invalid email address: "

  function SentLine(email: string, messageId: string): string {
    SentPrefix + email + MessageIdPrefix + messageId + ")"
  }

  function FailedLine(email: string, errorMessage: string): string {
    FailedPrefix + email + Separator + errorMessage
  }

  function SendErrorLine(email: string, errorMessage: string): string {
    email + Separator + errorMessage
  }

  function RecordErrorLine(message: string): string {
    RecordErrorPrefix + message
  }

  /** The message recorded for a failed send, chosen by the error's name. */
  function ErrorMessage(name: ErrorName, message: string, email: string): (m: string)
    ensures name == MessageRejected ==> m == RejectedPrefix + message
    ensures name == MailFromDomainNotVerified ==> m == UnverifiedPrefix + FromEmail
    ensures name == InvalidParameterValue ==> m == InvalidAddressPrefix + email
    ensures name == OtherName ==> m == message
  {
    match name
    case MessageRejected => RejectedPrefix + message
    case MailFromDomainNotVerified => UnverifiedPrefix + FromEmail
    case InvalidParameterValue => InvalidAddressPrefix + email
    case OtherName => message
  }

  // ---------------------------------------------------------------------
  // The loops, as functions of the inputs

  /** The command sent to one recipient of a newsletter. */
  function Command(n: Newsletter, recipient: Recipient): SendCommand {
    SendCommand(FromEmail, [recipient.address], n.subject, n.htmlBody, n.textBody)
  }

  /** The commands sent for a newsletter, one per address, in order. */
  function Commands(n: Newsletter, recipients: seq<Recipient>): (cs: seq<SendCommand>)
    ensures |cs| == |recipients|
    ensures forall i :: 0 <= i < |recipients| ==> cs[i] == Command(n, recipients[i])
  {
    seq(|recipients|, i requires 0 <= i < |recipients| => Command(n, recipients[i]))
  }

  /** The result line of the send attempt to `recipient` that gets `reply`. */
  function AttemptLine(recipient: Recipient, reply: Reply): string {
    match reply
    case Accepted(id) => SentLine(recipient.text, id)
    case Failed(name, message) => FailedLine(recipient.text, ErrorMessage(name, message, recipient.text))
  }

  /** The error lines a send attempt to `recipient` adds: none when the
      reply accepts it, else the address with the classified message. */
  function AttemptErrors(recipient: Recipient, reply: Reply): seq<string> {
    match reply
    case Accepted(_) => []
    case Failed(name, message) => [SendErrorLine(recipient.text, ErrorMessage(name, message, recipient.text))]
  }

  /** One iteration of the recipient loop: send to the recipient, then
      count the reply and add its lines. The reply is the one to the
      handler's |t.sends|-th call. */
  function SendStep(t: Tally, n: Newsletter, recipient: Recipient, ses: nat -> Reply): Tally {
    var reply := ses(|t.sends|);
    Tally(t.successful + (if reply.Accepted? then 1 else 0), t.failed + (if reply.Accepted? then 0 else 1),
          t.results + [AttemptLine(recipient, reply)], t.errors + AttemptErrors(recipient, reply),
          t.sends + [Command(n, recipient)])
  }

  /** The recipient loop over `recipients`, starting from `t`. */
  function SendAll(t: Tally, n: Newsletter, recipients: seq<Recipient>, ses: nat -> Reply): Tally
    decreases |recipients|
  {
    if recipients == [] then t
    else SendStep(SendAll(t, n, recipients[..|recipients| - 1], ses), n, recipients[|recipients| - 1], ses)
  }

  /** One iteration of the record loop: a record that fails before its first
      send counts as one failed email. */
  function RecordStep(t: Tally, record: Value, parse: Value -> Result<Value>, ses: nat -> Reply): Tally {
    match DecodeRecord(record, parse)
    case Ok(n) => SendAll(t, n, n.recipients, ses)
    case Thrown(message) =>
      Tally(t.successful, t.failed + 1, t.results + [FailureMark + RecordErrorLine(message)],
            t.errors + [RecordErrorLine(message)], t.sends)
  }

  /** The record loop over `records`. */
  function Batch(records: seq<Value>, parse: Value -> Result<Value>, ses: nat -> Reply): Tally
    decreases |records|
  {
    if records == [] then Tally(0, 0, [], [], [])
    else RecordStep(Batch(records[..|records| - 1], parse, ses), records[|records| - 1], parse, ses)
  }

  function SummaryOf(t: Tally): Summary {
    Summary(t.successful, t.failed, t.successful + t.failed)
  }

  /** The whole invocation. */
  function Invocation(event: Value, parse: Value -> Result<Value>, ses: nat -> Reply): Run {
    match EventRecords(event)
    case Thrown(message) =>
      Run(Response(500, ServerError("Server error: " + message, event, Summary(0, 0, 0), [], [])), [])
    case Ok(records) =>
      if records == [] then
        Run(Response(200, Report("No records to process", Summary(0, 0, 0), None, None)), [])
      else
        var t := Batch(records, parse, ses);
        Run(Response(200, Report("Processing completed", SummaryOf(t), Some(t.results),
                                 if |t.errors| > 0 then Some(t.errors) else None)),
            t.sends)
  }

  // ---------------------------------------------------------------------
  // The handler

  /** The recipient loop of the handler: one send per address of `n`, in
      order, updating the handler's counters, lines and sent commands. */
  method SendToRecipients(n: Newsletter, ses: nat -> Reply,
                          successful0: nat, failed0: nat, results0: seq<string>, errors0: seq<string>,
                          sends0: seq<SendCommand>)
    returns (successfulEmails: nat, failedEmails: nat, results: seq<string>, errors: seq<string>,
             sends: seq<SendCommand>)
    ensures Tally(successfulEmails, failedEmails, results, errors, sends)
      == SendAll(Tally(successful0, failed0, results0, errors0, sends0), n, n.recipients, ses)
  {
    successfulEmails, failedEmails, results, errors, sends := successful0, failed0, results0, errors0, sends0;
    ghost var start := Tally(successful0, failed0, results0, errors0, sends0);
    for j := 0 to |n.recipients|
      invariant Tally(successfulEmails, failedEmails, results, errors, sends) == SendAll(start, n, n.recipients[..j], ses)
    {
      var recipient := n.recipients[j];
      ghost var t := Tally(successfulEmails, failedEmails, results, errors, sends);
      assert n.recipients[..j + 1][..j] == n.recipients[..j];
      assert SendAll(start, n, n.recipients[..j + 1], ses) == SendStep(t, n, recipient, ses);
      var email := recipient.text;
      var command := SendCommand(FromEmail, [recipient.address], n.subject, n.htmlBody, n.textBody);
      var reply := ses(|sends|);
      sends := sends + [command];
      match reply {
        case Accepted(id) =>
          successfulEmails := successfulEmails + 1;
          results := results + [SentLine(email, id)];
          assert errors == t.errors + [];
        case Failed(name, message) =>
          failedEmails := failedEmails + 1;
          var errorMessage := ErrorMessage(name, message, email);
          results := results + [FailedLine(email, errorMessage)];
          errors := errors + [SendErrorLine(email, errorMessage)];
      }
      assert Tally(successfulEmails, failedEmails, results, errors, sends) == SendStep(t, n, recipient, ses);
    }
    assert n.recipients[..|n.recipients|] == n.recipients;
  }

  /** The body of the record loop: decode the record and send it to each
      recipient, or count it as one failed email with its error lines. */
  method ProcessRecord(record: Value, parse: Value -> Result<Value>, ses: nat -> Reply,
                       successful0: nat, failed0: nat, results0: seq<string>, errors0: seq<string>,
                       sends0: seq<SendCommand>)
    returns (successfulEmails: nat, failedEmails: nat, results: seq<string>, errors: seq<string>,
             sends: seq<SendCommand>)
    ensures Tally(successfulEmails, failedEmails, results, errors, sends)
      == RecordStep(Tally(successful0, failed0, results0, errors0, sends0), record, parse, ses)
  {
    match DecodeRecord(record, parse) {
      case Thrown(message) =>
        var errorMsg := RecordErrorLine(message);
        successfulEmails, failedEmails := successful0, failed0 + 1;
        results, errors, sends := results0 + [FailureMark + errorMsg], errors0 + [errorMsg], sends0;
      case Ok(n) =>
        successfulEmails, failedEmails, results, errors, sends :=
          SendToRecipients(n, ses, successful0, failed0, results0, errors0, sends0);
    }
  }

  /** index.mjs `handler`: the envelope checks, then the record loop with the
      recipient loop nested in it, sending through `ses`. Returns the
      response and the commands sent, in call order. */
  method Handler(event: Value, parse: Value -> Result<Value>, ses: nat -> Reply)
    returns (response: Response, sends: seq<SendCommand>)
    ensures Run(response, sends) == Invocation(event, parse, ses)
  {
    var successfulEmails: nat, failedEmails: nat := 0, 0;
    var results: seq<string> := [];
    var errors: seq<string> := [];
    sends := [];

    var envelope := EventRecords(event);
    if envelope.Thrown? {
      var summary := Summary(successfulEmails, failedEmails, successfulEmails + failedEmails);
      response := Response(500, ServerError("Server error: " + envelope.message, event, summary, results, errors));
      assert Invocation(event, parse, ses) == Run(response, []);
      return;
    }
    var records := envelope.value;
    if |records| == 0 {
      response := Response(200, Report("No records to process", Summary(0, 0, 0), None, None));
      assert Invocation(event, parse, ses) == Run(response, []);
      return;
    }

    for i := 0 to |records|
      invariant Tally(successfulEmails, failedEmails, results, errors, sends) == Batch(records[..i], parse, ses)
    {
      assert records[..i + 1][..i] == records[..i];
      successfulEmails, failedEmails, results, errors, sends :=
        ProcessRecord(records[i], parse, ses, successfulEmails, failedEmails, results, errors, sends);
    }
    assert records[..|records|] == records;
    ghost var t := Batch(records, parse, ses);
    assert t == Tally(successfulEmails, failedEmails, results, errors, sends);

    var summary := Summary(successfulEmails, failedEmails, successfulEmails + failedEmails);
    response := Response(200, Report("Processing completed", summary, Some(results),
                                     if |errors| > 0 then Some(errors) else None));
    assert summary == SummaryOf(t);
  }

  // ---------------------------------------------------------------------
  // Properties

  /** Without a truthy event whose Records is a truthy array the response is a
      500 with zero counts and empty lists, and nothing is sent; otherwise it
      is a 200. */
  lemma EnvelopeRejected(event: Value, parse: Value -> Result<Value>, ses: nat -> Reply)
    ensures var run := Invocation(event, parse, ses);
      run.response.statusCode == 500 <==>
        !Truthy(event) || !Truthy(Field(event, "Records")) || !IsArray(Field(event, "Records"))
    ensures var run := Invocation(event, parse, ses);
      run.response.statusCode == 500 ==>
        && run.sends == []
        && run.response.body.ServerError?
        && run.response.body.summary == Summary(0, 0, 0)
        && run.response.body.resultsSoFar == [] && run.response.body.errorsSoFar == []
        && run.response.body.eventReceived == event
  {
  }

  /** An empty Records array is a success with zero counts and no sends. */
  lemma NoRecords(event: Value, parse: Value -> Result<Value>, ses: nat -> Reply)
    requires Truthy(event) && Field(event, "Records") == Arr([])
    ensures Invocation(event, parse, ses)
      == Run(Response(200, Report("No records to process", Summary(0, 0, 0), None, None)), [])
  {
  }

  /** A record that is not well formed adds one failed email, one result line
      and one error line, and sends nothing. */
  lemma MalformedRecordFails(t: Tally, record: Value, parse: Value -> Result<Value>, ses: nat -> Reply)
    requires !WellFormed(record, parse)
    ensures var u := RecordStep(t, record, parse, ses);
      && u.successful == t.successful && u.failed == t.failed + 1
      && |u.results| == |t.results| + 1 && u.results[..|t.results|] == t.results
      && |u.errors| == |t.errors| + 1 && u.errors[..|t.errors|] == t.errors
      && DecodeRecord(record, parse).Thrown?
      && u.errors[|t.errors|] == RecordErrorLine(DecodeRecord(record, parse).message)
      && u.sends == t.sends
  {
    var d := DecodeRecord(record, parse);
    assert d.Thrown? by { DecodeAccepts(record, parse); }
    var u := RecordStep(t, record, parse, ses);
    assert u.results[..|t.results|] == t.results;
    assert u.errors[..|t.errors|] == t.errors;
  }

  /** The recipient loop sends exactly one command per address, in list
      order, each from FromEmail to that single address with the same
      subject, HTML and text, and counts every address once, as sent or as
      failed. A failed send does not skip later addresses. */
  lemma {:induction false} SendAllSends(t: Tally, n: Newsletter, recipients: seq<Recipient>, ses: nat -> Reply)
    ensures var u := SendAll(t, n, recipients, ses);
      && u.sends == t.sends + Commands(n, recipients)
      && u.successful + u.failed == t.successful + t.failed + |recipients|
      && u.successful >= t.successful && u.failed >= t.failed
    decreases |recipients|
  {
    if recipients != [] {
      var k := |recipients| - 1;
      var front := recipients[..k];
      var v := SendAll(t, n, front, ses);
      SendAllSends(t, n, front, ses);
      assert SendAll(t, n, recipients, ses) == SendStep(v, n, recipients[k], ses);
      CommandsLast(n, recipients);
      AppendAssociative(t.sends, Commands(n, front), [Command(n, recipients[k])]);
    }
  }

  lemma CommandsLast(n: Newsletter, recipients: seq<Recipient>)
    requires recipients != []
    ensures Commands(n, recipients)
      == Commands(n, recipients[..|recipients| - 1]) + [Command(n, recipients[|recipients| - 1])]
  {
    var k := |recipients| - 1;
    assert forall i :: 0 <= i < k ==> recipients[..k][i] == recipients[i];
  }

  /** The recipient loop only appends: one result line per address, one
      error line per failure, and the earlier lines are kept. */
  lemma {:induction false} SendAllKeepsLines(t: Tally, n: Newsletter, recipients: seq<Recipient>, ses: nat -> Reply)
    ensures var u := SendAll(t, n, recipients, ses);
      && u.failed >= t.failed
      && |u.results| == |t.results| + |recipients| && u.results[..|t.results|] == t.results
      && |u.errors| == |t.errors| + (u.failed - t.failed) && u.errors[..|t.errors|] == t.errors
    decreases |recipients|
  {
    if recipients != [] {
      var front := recipients[..|recipients| - 1];
      SendAllKeepsLines(t, n, front, ses);
      var v := SendAll(t, n, front, ses);
      var u := SendAll(t, n, recipients, ses);
      assert u.results[..|v.results|] == v.results;
      assert u.errors[..|v.errors|] == v.errors;
    }
  }

  /** An accepted reply counts the email as sent, any other as failed: the
      counters grow by the number of accepted replies to calls |t.sends|,
      ..., |t.sends| + |recipients| - 1 and by the rest. */
  lemma {:induction false} SendAllCounts(t: Tally, n: Newsletter, recipients: seq<Recipient>, ses: nat -> Reply)
    ensures var u := SendAll(t, n, recipients, ses);
      && |u.sends| == |t.sends| + |recipients|
      && u.successful == t.successful + AcceptedCount(ses, |t.sends|, |recipients|)
      && u.failed == t.failed + (|recipients| - AcceptedCount(ses, |t.sends|, |recipients|))
    decreases |recipients|
  {
    if recipients != [] {
      var k := |recipients| - 1;
      SendAllCounts(t, n, recipients[..k], ses);
    }
  }

  /** The i-th address gets the reply to call |t.sends| + i, and its result
      line is the sent line with the MessageId or the failed line with the
      classified message. */
  lemma {:induction false} SendAllLines(t: Tally, n: Newsletter, recipients: seq<Recipient>, ses: nat -> Reply)
    ensures SendAll(t, n, recipients, ses).results == t.results + AttemptLines(recipients, ses, |t.sends|)
    decreases |recipients|
  {
    if recipients == [] {
      assert t.results + [] == t.results;
    } else {
      var k := |recipients| - 1;
      var v := SendAll(t, n, recipients[..k], ses);
      var line := AttemptLine(recipients[k], ses(|t.sends| + k));
      var before := AttemptLines(recipients[..k], ses, |t.sends|);
      assert v.results == t.results + before by { SendAllLines(t, n, recipients[..k], ses); }
      assert |v.sends| == |t.sends| + k by { SendAllCounts(t, n, recipients[..k], ses); }
      assert SendStep(v, n, recipients[k], ses).results == v.results + [line];
      assert SendAll(t, n, recipients, ses) == SendStep(v, n, recipients[k], ses);
      AttemptLinesLast(recipients, ses, |t.sends|);
      AppendAssociative(t.results, before, [line]);
    }
  }

  /** The last attempt's line ends the attempt lines. */
  lemma AttemptLinesLast(recipients: seq<Recipient>, ses: nat -> Reply, from: nat)
    requires recipients != []
    ensures AttemptLines(recipients, ses, from)
      == AttemptLines(recipients[..|recipients| - 1], ses, from)
         + [AttemptLine(recipients[|recipients| - 1], ses(from + (|recipients| - 1)))]
  {
  }

  /** The error lines of the recipient loop: one line, addressed and
      classified, for each address whose reply is a failure, in order. */
  lemma {:induction false} SendAllErrors(t: Tally, n: Newsletter, recipients: seq<Recipient>, ses: nat -> Reply)
    ensures SendAll(t, n, recipients, ses).errors == t.errors + ErrorLines(recipients, ses, |t.sends|)
    decreases |recipients|
  {
    if recipients == [] {
      assert t.errors + [] == t.errors;
    } else {
      var k := |recipients| - 1;
      var v := SendAll(t, n, recipients[..k], ses);
      var lines := AttemptErrors(recipients[k], ses(|t.sends| + k));
      var before := ErrorLines(recipients[..k], ses, |t.sends|);
      assert v.errors == t.errors + before by { SendAllErrors(t, n, recipients[..k], ses); }
      assert |v.sends| == |t.sends| + k by { SendAllCounts(t, n, recipients[..k], ses); }
      assert SendStep(v, n, recipients[k], ses).errors == v.errors + lines;
      assert SendAll(t, n, recipients, ses) == SendStep(v, n, recipients[k], ses);
      ErrorLinesLast(recipients, ses, |t.sends|);
      AppendAssociative(t.errors, before, lines);
    }
  }

  /** The last attempt's error lines end the error lines. */
  lemma ErrorLinesLast(recipients: seq<Recipient>, ses: nat -> Reply, from: nat)
    requires recipients != []
    ensures ErrorLines(recipients, ses, from)
      == ErrorLines(recipients[..|recipients| - 1], ses, from)
         + AttemptErrors(recipients[|recipients| - 1], ses(from + (|recipients| - 1)))
  {
  }

  lemma AppendAssociative<T>(a: seq<T>, b: seq<T>, c: seq<T>)
    ensures (a + b) + c == a + (b + c)
  {
  }

  /** The error lines of attempts to `recipients`, the i-th getting the reply to call `from + i`. */
  function ErrorLines(recipients: seq<Recipient>, ses: nat -> Reply, from: nat): seq<string>
    decreases |recipients|
  {
    if recipients == [] then []
    else
      var k := |recipients| - 1;
      ErrorLines(recipients[..k], ses, from) + AttemptErrors(recipients[k], ses(from + k))
  }

  /** The result lines of attempts to `recipients`, the i-th getting the reply to call `from + i`. */
  function AttemptLines(recipients: seq<Recipient>, ses: nat -> Reply, from: nat): seq<string>
    decreases |recipients|
  {
    if recipients == [] then []
    else
      var k := |recipients| - 1;
      AttemptLines(recipients[..k], ses, from) + [AttemptLine(recipients[k], ses(from + k))]
  }

  /** The i-th attempt's line is the line for the i-th address and the reply to call `from + i`. */
  lemma {:induction false} AttemptLineAt(recipients: seq<Recipient>, ses: nat -> Reply, from: nat, i: nat)
    requires i < |recipients|
    ensures |AttemptLines(recipients, ses, from)| == |recipients|
    ensures AttemptLines(recipients, ses, from)[i] == AttemptLine(recipients[i], ses(from + i))
    decreases |recipients|
  {
    var k := |recipients| - 1;
    var front := recipients[..k];
    AttemptLinesLast(recipients, ses, from);
    AttemptLinesLength(front, ses, from);
    if i < k {
      AttemptLineAt(front, ses, from, i);
      assert front[i] == recipients[i];
    } else {
      assert i == k;
    }
  }

  lemma {:induction false} AttemptLinesLength(recipients: seq<Recipient>, ses: nat -> Reply, from: nat)
    ensures |AttemptLines(recipients, ses, from)| == |recipients|
    decreases |recipients|
  {
    if recipients != [] { AttemptLinesLength(recipients[..|recipients| - 1], ses, from); }
  }

  /** The number of replies among calls `from`, ..., `from + k - 1` that accept the message. */
  function AcceptedCount(ses: nat -> Reply, from: nat, k: nat): nat {
    if k == 0 then 0
    else AcceptedCount(ses, from, k - 1) + (if ses(from + k - 1).Accepted? then 1 else 0)
  }

  /** Two recipients whose second send fails: one email counted as sent and
      one as failed, with the result lines in order and the failure's error
      line classified by its name. */
  lemma SecondRecipientFails(t: Tally, n: Newsletter, a: Recipient, b: Recipient, ses: nat -> Reply)
    requires ses(|t.sends|).Accepted? && ses(|t.sends| + 1).Failed?
    ensures var u := SendAll(t, n, [a, b], ses);
      var r := ses(|t.sends| + 1);
      && u.successful == t.successful + 1 && u.failed == t.failed + 1
      && u.results == t.results + [SentLine(a.text, ses(|t.sends|).messageId),
                                   FailedLine(b.text, ErrorMessage(r.name, r.message, b.text))]
      && u.errors == t.errors + [SendErrorLine(b.text, ErrorMessage(r.name, r.message, b.text))]
      && u.sends == t.sends + [Command(n, a), Command(n, b)]
  {
    assert [a, b][..1] == [a] && [a][..0] == [];
    var v := SendStep(t, n, a, ses);
    assert SendAll(t, n, [a], ses) == v;
    assert SendAll(t, n, [a, b], ses) == SendStep(v, n, b, ses);
  }

  /** A well-formed record with an empty emails array changes nothing. */
  lemma EmptyEmailsNoEffect(t: Tally, record: Value, parse: Value -> Result<Value>, ses: nat -> Reply)
    requires WellFormed(record, parse)
    requires parse(record.fields["body"]).value.fields["emails"] == Arr([])
    ensures RecordStep(t, record, parse, ses) == t
  {
    DecodeAccepts(record, parse);
  }

  /** The bookkeeping the response relies on. */
  ghost predicate Balanced(t: Tally) {
    |t.results| == t.successful + t.failed && |t.errors| == t.failed
  }

  lemma {:induction false} BatchBalanced(records: seq<Value>, parse: Value -> Result<Value>, ses: nat -> Reply)
    ensures Balanced(Batch(records, parse, ses))
    decreases |records|
  {
    if records != [] {
      var front := records[..|records| - 1];
      BatchBalanced(front, parse, ses);
      var t := Batch(front, parse, ses);
      var last := records[|records| - 1];
      match DecodeRecord(last, parse)
      case Ok(n) => SendAllSends(t, n, n.recipients, ses); SendAllKeepsLines(t, n, n.recipients, ses);
      case Thrown(_) =>
    }
  }

  /** total_processed is the sum of the two counters, there is one result
      line per counted email and one error line per failed one, and the
      errors field is left out exactly when there are no errors. */
  lemma ResponseBookkeeping(event: Value, parse: Value -> Result<Value>, ses: nat -> Reply)
    requires EventRecords(event).Ok?
    ensures var body := Invocation(event, parse, ses).response.body;
      && body.Report?
      && body.summary.totalProcessed == body.summary.successfulEmails + body.summary.failedEmails
      && (body.results.Some? ==> |body.results.value| == body.summary.totalProcessed)
      && (body.errors.None? <==> body.summary.failedEmails == 0)
      && (body.errors.Some? ==> |body.errors.value| == body.summary.failedEmails)
  {
    BatchBalanced(EventRecords(event).value, parse, ses);
  }

  /** `xs.flatMap(f)` */
  function FlatMap<T, U>(f: T -> seq<U>, xs: seq<T>): seq<U>
    decreases |xs|
  {
    if xs == [] then [] else FlatMap(f, xs[..|xs| - 1]) + f(xs[|xs| - 1])
  }

  lemma {:induction false} FlatMapAppend<T, U>(f: T -> seq<U>, a: seq<T>, b: seq<T>)
    ensures FlatMap(f, a + b) == FlatMap(f, a) + FlatMap(f, b)
    decreases |b|
  {
    if b == [] {
      assert a + b == a;
    } else {
      var front, last := b[..|b| - 1], b[|b| - 1];
      FlatMapAppend(f, a, front);
      assert (a + b)[..|a + b| - 1] == a + front;
      assert (a + b)[|a + b| - 1] == last;
    }
  }

  /** The commands a batch sends, computed without any reply. */
  function PlannedSends(records: seq<Value>, parse: Value -> Result<Value>): seq<SendCommand> {
    FlatMap(CommandsOf(parse), records)
  }

  function CommandsOf(parse: Value -> Result<Value>): Value -> seq<SendCommand> {
    record => RecordCommands(record, parse)
  }

  /** The commands sent for one record: one per address of a decoded record. */
  function RecordCommands(record: Value, parse: Value -> Result<Value>): seq<SendCommand> {
    match DecodeRecord(record, parse)
    case Ok(n) => Commands(n, n.recipients)
    case Thrown(_) => []
  }

  /** What the handler sends depends on the records alone: no reply, failed
      or not, stops or skips an attempt, for this record or a later one. */
  lemma {:induction false} BatchSendsPlanned(records: seq<Value>, parse: Value -> Result<Value>, ses: nat -> Reply)
    ensures Batch(records, parse, ses).sends == PlannedSends(records, parse)
    decreases |records|
  {
    if records != [] {
      var front := records[..|records| - 1];
      BatchSendsPlanned(front, parse, ses);
      match DecodeRecord(records[|records| - 1], parse)
      case Ok(n) => SendAllSends(Batch(front, parse, ses), n, n.recipients, ses);
      case Thrown(_) =>
    }
  }

  /** Records are handled independently: the commands for a batch are those
      for its first part followed by those for the rest; a malformed record
      contributes none. */
  lemma PlannedSendsAppend(a: seq<Value>, b: seq<Value>, parse: Value -> Result<Value>)
    ensures PlannedSends(a + b, parse) == PlannedSends(a, parse) + PlannedSends(b, parse)
  {
    FlatMapAppend(CommandsOf(parse), a, b);
  }

  lemma MalformedRecordSendsNothing(record: Value, parse: Value -> Result<Value>)
    requires !WellFormed(record, parse)
    ensures PlannedSends([record], parse) == []
  {
    DecodeAccepts(record, parse);
    assert [record][..0] == [];
    assert FlatMap(CommandsOf(parse), [record]) == FlatMap(CommandsOf(parse), []) + RecordCommands(record, parse);
  }
}
