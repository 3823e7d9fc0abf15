/** The email service as the handlers see it. A send call either resolves
    with the MessageId of the accepted message or throws an error that
    carries a name and a message. Which one happens is not computed here:
    each handler takes a function `ses: nat -> Reply` that gives the reply
    to its k-th send call (counting from 0), in call order. */
module Ses {
  /** The `name` of a thrown error, as far as the handlers tell names apart:
      the three names index.mjs singles out, and every other name. */
  datatype ErrorName = MessageRejected | MailFromDomainNotVerified | InvalidParameterValue | OtherName

  datatype Reply =
    | Accepted(messageId: string)
    | Failed(name: ErrorName, message: string)

  /** The class of the error name `name`, compared the way `===` compares strings. */
  function NameOf(name: string): (k: ErrorName)
    ensures k == MessageRejected <==> name == "MessageRejected"
    ensures k == MailFromDomainNotVerified <==> name == "MailFromDomainNotVerified"
    ensures k == InvalidParameterValue <==> name == "InvalidParameterValue"
    ensures k == OtherName <==> name !in {"MessageRejected", "MailFromDomainNotVerified", "InvalidParameterValue"}
  {
    if name == "MessageRejected" then MessageRejected
    else if name == "MailFromDomainNotVerified" then MailFromDomainNotVerified
    else if name == "InvalidParameterValue" then InvalidParameterValue
    else OtherName
  }
}
