# AWS Lambda SQS → SES email handlers, modelled in Dafny

The repository has two Lambda handlers. Each consumes a batch of SQS records and sends email through Amazon SES.

- **`index.mjs` (newsletter handler).**
  - It checks the event envelope (`event`, `event.Records`).
  - For every record it parses the JSON body and validates `emails`, `subject` and `html_body`.
  - It derives a plain-text fallback from the HTML.
  - It sends one email per address, from the fixed sender `info@ticketsqueeze.com`.
  - It counts sent and failed emails, collects a result line for every attempt and an error line for every failure, and answers with a summary. A bad envelope gives a 500 response.
- **`index.js` (mailer handler).**
  - It sends one email per record.
  - It validates `to`, `subject` and `htmlBody`, and turns `to` and `replyTo` into arrays.
  - It adds the Text part only when it is given, and takes the sender from the `FROM_EMAIL` setting or from the body.
  - It counts successes and failures. On any failure it answers with the SQS partial-batch-failure list `batchItemFailures`, so that only those records are retried.

The model has five modules:

- `Js` (`js_value.dfy`): JavaScript values as the handlers see them. That covers truthiness, property reads, `Array.isArray` and `String(v)`. A read on `null`/`undefined` throws with V8's TypeError message.
- `PlainText` (`plain_text.dfy`): the fallback `html.replace(/<[^>]+>/g, '').replace(/\s+/g, ' ').trim()`. It is a function on strings, with its properties proved.
- `Ses` (`ses.dfy`): the reply of one send call. It is either accepted, with its MessageId, or failed, with the error's `message` and its `name`. The name is kept only as far as the newsletter handler tells names apart (`NameOf`).
- `NewsletterHandler` (`newsletter_handler.dfy`): `index.mjs`. Each element of `emails` is paired once, when the record is decoded, with its `String()` form, the text that `${email}` writes into the lines.
- `MailerHandler` (`mailer_handler.dfy`): `index.js`.

Outside effects become parameters:

- `parse: Value -> Result<Value>` is `JSON.parse`. It returns a value or throws.
- `ses: nat -> Reply` is the reply to the handler's k-th send call.

Each handler is a `method` whose loops update the same counters and lists as the source. It returns the response and the list of send commands it issued, in call order. Its postcondition equates that pair with `Invocation`, a function built from folds over the records (`Batch`) and over the recipients (`SendAll`). The lemmas state what the source promises in terms of those folds.

Where the code behaves in ways a reader may not expect, the model follows the code:

- In `index.js`, a `null` or `undefined` record does not stay a record-level failure. The catch block reads `record.messageId` again, that read throws, and the handler's promise rejects. `MailerHandler.Response.Rejected` models this.
- In `index.js`, `batchItemFailures` lists every record whose `messageId` equals the id of some error entry. That is not necessarily the set of records that failed: it differs when ids repeat. `ReportedRecordFailed` assumes distinct ids; `FailedRecordReported` needs no such assumption.
- The fallback does not remove every tag. `<>` stays, and so does a `<` with no `>` after it, because the pattern needs at least one character other than `>` between the brackets.
- Neither handler embeds images or rewrites them to `cid:` references.

## Model

| member | source | states |
|---|---|---|
| `Js.Get` | index.mjs:63 | A property read throws exactly on `null` and `undefined`; otherwise a defined result is the object's own field. |
| `Js.GetReads` | index.mjs:63-72 | A read on `null` or `undefined` throws V8's message naming the key. An own field reads as its value. Any other read gives `undefined`. |
| `Ses.NameOf` | index.mjs:128-135 | An error name falls in the class of `MessageRejected`, `MailFromDomainNotVerified` or `InvalidParameterValue` exactly when it is that name. Every other name is `OtherName`. |
| `PlainText.TrimStart` | index.mjs:85 | The result is a suffix of the input that does not start with whitespace. Everything removed is whitespace. |
| `PlainText.TrimEnd` | index.mjs:85 | The result is a prefix of the input that does not end with whitespace. Everything removed is whitespace. |
| `PlainText.PlainTextProperties` | index.mjs:85 | For every HTML input, the text body has no match of `<[^>]+>`, no two adjacent whitespace characters, and no whitespace at either end. |
| `PlainText.PlainTextOfPlainWords` | index.mjs:85 | A text without `>`, with single spaces between words and trimmed ends, is its own fallback. |
| `PlainText.StripTagsExample` | index.mjs:85 | Tag removal turns `<p>Hello <b>World</b></p>` into `Hello World`. |
| `PlainText.PlainTextExample` | index.mjs:85 | The fallback of `<p>Hello <b>World</b></p>` is `Hello World`. |
| `NewsletterHandler.DecodeAccepts` | index.mjs:63-85 | A record is decoded exactly when it is well formed. Its body is truthy and parses to an object with an array `emails`, a truthy `subject` and a non-empty string `html_body`. The newsletter then carries the elements of `emails` as its recipients, the subject, the HTML and its plain-text fallback. |
| `NewsletterHandler.RecipientsAt` | index.mjs:82-91 | The i-th recipient is the i-th element of `emails`, with its `String()` form. |
| `NewsletterHandler.MalformedRecordFails` | index.mjs:144-150 | A record that fails the checks of lines 63-80 adds one failed email, one result line and one error line, and sends nothing. The error line is "Error processing message: " followed by the thrown message. |
| `NewsletterHandler.MalformedRecordSendsNothing` | index.mjs:63-80 | No send command is planned for a record that is not well formed. |
| `NewsletterHandler.EmptyEmailsNoEffect` | index.mjs:72-90 | A well-formed record with an empty `emails` array changes no counter, no line and no send. |
| `NewsletterHandler.ErrorMessage` | index.mjs:128-135 | There is one case for each of `MessageRejected`, `MailFromDomainNotVerified` and `InvalidParameterValue`. Any other error name keeps the raw message. |
| `NewsletterHandler.SendAllSends` | index.mjs:89-138 | The recipient loop adds the commands for its addresses, one each in list order. Every command is from `FromEmail` to `[email]`, with the record's subject, HTML and text. Every address counts once, as sent or as failed. |
| `NewsletterHandler.SendAllKeepsLines` | index.mjs:120-137 | Each attempt adds one result line and each failure one error line. Earlier lines are kept. |
| `NewsletterHandler.SendAllCounts` | index.mjs:89-138 | `successfulEmails` grows by the number of accepted replies to the loop's calls and `failedEmails` by the rest. The loop makes one call per address. |
| `NewsletterHandler.SendAllLines` | index.mjs:117-136 | The result lines are, in address order, the sent line with the reply's MessageId or the failed line with the classified message. The i-th address gets the reply to the i-th call of the loop. |
| `NewsletterHandler.AttemptLineAt` | index.mjs:117-136 | The i-th result line is the line for the i-th address and the reply to call `from + i`. |
| `NewsletterHandler.SendAllErrors` | index.mjs:124-137 | The error lines are, in address order, one per failed reply: the address, `: ` and the classified message. Accepted replies add none. |
| `NewsletterHandler.SecondRecipientFails` | index.mjs:89-137 | An accepted first send and a failed second one give one success and one failure. They add the sent line and then the failed line, one error line for the second address, and both commands. |
| `NewsletterHandler.ProcessRecord` | index.mjs:58-150 | One pass of the imperative record loop leaves counters, lines and sends equal to `RecordStep`: a decoded record goes to the recipient loop; one that throws counts as one failed email, with its result line and error line. |
| `NewsletterHandler.SendToRecipients` | index.mjs:90-140 | The imperative recipient loop leaves counters, lines and sends equal to the fold `SendAll`. |
| `NewsletterHandler.BatchBalanced` | index.mjs:118-150 | After any prefix of the records: the result lines equal successful + failed in number, and there is one error line per failed email. |
| `NewsletterHandler.BatchSendsPlanned` | index.mjs:58-151 | The commands sent depend only on the records, never on the replies. A failed send stops nothing and skips nothing. |
| `NewsletterHandler.PlannedSendsAppend` | index.mjs:58-151 | The commands for a batch are those for its first part followed by those for the rest. |
| `NewsletterHandler.EnvelopeRejected` | index.mjs:28-38 | The status is 500 exactly when the event is falsy or `Records` is falsy or not an array. The 500 response (lines 171-187) then has zero counts, empty lists and the event echoed back, and nothing is sent. |
| `NewsletterHandler.NoRecords` | index.mjs:40-53 | An empty `Records` array gives 200, "No records to process" and zero counts, with no sends. |
| `NewsletterHandler.ResponseBookkeeping` | index.mjs:153-166 | For a valid envelope: `total_processed` = successful + failed, and there is one result line per processed email. `errors` is left out exactly when no email failed; otherwise it has one line per failure. |
| `NewsletterHandler.Handler` | index.mjs:18-189 | The handler's response and its sends are those of `Invocation`: envelope checks, then the record loop with the nested recipient loop, then the summary. |
| `MailerHandler.AsArray` | index.js:32 | A non-array value becomes the one-element list holding it. |
| `MailerHandler.AsArrayIdempotent` | index.js:57-61 | Normalising an array gives back its elements, and normalising twice changes nothing. |
| `MailerHandler.PrepareShape` | index.js:20-61 | A record reaches the send exactly when it is sendable. `ToAddresses` is `to` as an array. `Source` is FROM_EMAIL if truthy, else `from`. Text is present iff `textBody` is truthy. `ReplyToAddresses` is present iff `replyTo` is truthy, as an array. A parsed body missing a field throws the missing-fields message. |
| `MailerHandler.MissingFieldsFails` | index.js:24-26 | A body with a falsy `to`, `subject` or `htmlBody` adds one failure and sends nothing. It pushes `{messageId: record.messageId, error: "Missing required fields: to, subject, or htmlBody"}` (lines 69-76). |
| `MailerHandler.RecordStepOutcome` | index.js:18-79 | A record that does not reach the send fails with the message that the parse or the field check threw. A sent record succeeds exactly when the reply accepts it. A failed send appends the reply's message under the record's messageId. |
| `MailerHandler.RecordStepEffect` | index.js:18-79 | For a non-nullish record the loop goes on and counts exactly one outcome. A sendable record is sent once; any other record is not sent and counts as a failure. A failure appends one entry with the record's messageId; a success changes no entry. |
| `MailerHandler.BatchRunsUnlessNullish` | index.js:69-76 | The record loop finishes exactly when no record is `null` or `undefined`. Otherwise the catch block throws. |
| `MailerHandler.CrashPersists` | index.js:17-80 | Once the catch block has thrown, no later record is processed. |
| `MailerHandler.BatchCounts` | index.js:17-80 | After the loop: successful + failed = number of records, one error entry per failure, at most one send per record, and each entry carries some record's messageId. |
| `MailerHandler.ErrorsGrow` | index.js:72-75 | The error entries after a prefix of the records begin the final error entries. |
| `MailerHandler.ErrorsFromFailedRecords` | index.js:69-76 | Every error entry was pushed for a record that failed, under that record's messageId. |
| `MailerHandler.FailedItemsContains` | index.js:86-88 | An id is in the failure list iff it is the id of some error entry and of some record. |
| `MailerHandler.FailedItemsSingle` | index.js:86-88 | One record contributes its messageId once when some error entry carries that id, and nothing otherwise. |
| `MailerHandler.FailedItemsAppend` | index.js:86-92 | The failure list of two batches placed end to end is their lists placed end to end. Records keep their order and their multiplicity. |
| `MailerHandler.FailedRecordReported` | index.js:85-94 | Every record that failed has its messageId in `batchItemFailures`. |
| `MailerHandler.ReportedRecordFailed` | index.js:86-93 | With distinct messageIds, every record listed in `batchItemFailures` failed. |
| `MailerHandler.ResponseShape` | index.js:85-103 | With no nullish record the loop finishes. With no failure the answer is 200, "Emails processed successfully" and successful = number of records. With a failure it is only the list built from the error entries. |
| `MailerHandler.Handler` | index.js:7-104 | The handler's response and its sends are those of `Invocation`. That includes the rejection when the catch block itself throws. |

## Left out

- Image embedding and `cid:` rewriting: neither handler implements them. `test-images.php` only probes URLs and enqueues a message, so it is not part of this model.
- The SES and SQS SDK clients, their construction and the region setting: each send is modelled by its reply alone, the `ses` parameter.
- `console.log` and `console.error`, and `async`/`await` scheduling: logging has no effect on results, and the handlers await each send in order.
- `JSON.parse` is the `parse` parameter. `JSON.stringify` of the response body is left out: the body is a datatype, and a field that would be `undefined` is `None`.
- Numbers are integers: neither handler does arithmetic on values from the message, and `String(n)` is modelled for integers only. Its decimal form agrees with JavaScript only for safe integers (|n| < 2^53): JavaScript writes `1e+21` from 10^21 on, and `JSON.parse` rounds integers beyond 2^53.
- `Js.ToString`: an object converts as `[object Object]`. An object from JSON whose own `toString` or `valueOf` key hides the built-in method (which can make the conversion throw) is not modelled.
- `MailerHandler.FailedItems`: `===` on message ids is structural equality of values. It agrees with `===` for strings, numbers, booleans, `null` and `undefined`, which are the ids SQS gives, but not for objects.
- `MailerHandler.Handler` takes `event.Records` as a list. A `null` event or a non-iterable `Records`, where `for...of` throws before any record, is not modelled.
- The TypeError messages are those of V8, the engine Lambda runs on: "Cannot read properties of null (reading 'k')" and "html_body.replace is not a function".
- The environment variable `FROM_EMAIL` is the `fromEnv` parameter of the mailer handler.
