/** `POST /call-status`: the voice provider's call-outcome webhook, which
    falls back to an SMS when the reminder call was not answered. */
module CallStatus {
  import opened JsText

  const FallbackBody: string :=
    "We tried calling to confirm your appointment tomorrow. Reply YES, NO, or RESCHEDULE."

  /** `['no-answer','busy'].includes(status)`: strict equality, so an absent
      field or an array (a repeated url-encoded key) never matches. */
  predicate SmsFallbackDue(status: Field) {
    status == Str("no-answer") || status == Str("busy")
  }

  /** The message the fallback sends: to the called number, fixed text. */
  datatype Sms = Sms(to: Field, body: string)

  datatype CallStatusAnswer =
    | Acknowledged(sms: Option<Sms>)  // 200, after sending `sms` if there is one
    | ProcessingFailed                // 500 'Call status processing failed'

  /** The handler as written: `twilioClient` is never declared, so reaching
      `twilioClient.messages.create` throws a ReferenceError into the catch. */
  function HandleCallStatusAsWritten(status: Field, phoneNumber: Field): (r: CallStatusAnswer)
    ensures r == ProcessingFailed <==> SmsFallbackDue(status)
    ensures r != ProcessingFailed ==> r == Acknowledged(None)
  {
    if SmsFallbackDue(status) then ProcessingFailed else Acknowledged(None)
  }

  /** The handler as intended: an unanswered or busy call is followed by one
      SMS to the number that was called, and the webhook is acknowledged. */
  function HandleCallStatus(status: Field, phoneNumber: Field): (r: CallStatusAnswer)
    ensures r.Acknowledged?
    ensures r.sms.Some? <==> status == Str("no-answer") || status == Str("busy")
    ensures r.sms.Some? ==> r.sms.value == Sms(phoneNumber, FallbackBody)
  {
    Acknowledged(if SmsFallbackDue(status) then Some(Sms(phoneNumber, FallbackBody)) else None)
  }

  /** As written, no outcome ever gets an SMS out: the outcomes meant to send
      one end in a 500 instead, and for every other outcome the two handlers
      agree. */
  lemma AsWrittenNeverSends(status: Field, phoneNumber: Field)
    ensures !(HandleCallStatusAsWritten(status, phoneNumber).Acknowledged?
              && HandleCallStatusAsWritten(status, phoneNumber).sms.Some?)
    ensures (HandleCallStatusAsWritten(status, phoneNumber) == HandleCallStatus(status, phoneNumber))
              <==> !SmsFallbackDue(status)
  {
  }

  /** A busy line: the intended handler texts the caller while the code
      answers 500. */
  lemma BusyLine(phoneNumber: Field)
    ensures HandleCallStatusAsWritten(Str("busy"), phoneNumber) == ProcessingFailed
    ensures HandleCallStatus(Str("busy"), phoneNumber) == Acknowledged(Some(Sms(phoneNumber, FallbackBody)))
  {
  }
}
