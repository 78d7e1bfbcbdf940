/** `POST /handle-confirmation`: the voice agent's callback with the patient's
    spoken reply, mapped to the status the route writes back to the
    appointment named in the query string. */
module Confirmation {
  import opened JsText

  /** The two statuses the route writes. */
  datatype ApptStatus = Confirmed | Cancelled

  /** The `status` text the route sends in the update. */
  function StatusName(s: ApptStatus): string {
    match s
    case Confirmed => "confirmed"
    case Cancelled => "cancelled"
  }

  /** The route's answer before the status update is sent. */
  datatype ConfirmationAnswer =
    | MissingAppointmentId                                // 400 'Missing appointmentId'
    | HandlingFailed                                      // 500: a non-string reply has no `.trim`
    | UpdateStatus(appointmentId: Field, status: ApptStatus)  // PUT .../status, then 200

  /** `confirmation === 'yes' ? 'confirmed' : 'cancelled'` after
      `.trim().toLowerCase()`. */
  function ReplyStatus(reply: string): ApptStatus {
    if ToLower(Trim(reply)) == "yes" then Confirmed else Cancelled
  }

  /** The whole handler: the appointment id is checked first, then the reply
      (`req.body.confirmation || ''`) is mapped. */
  function HandleConfirmation(appointmentId: Field, confirmation: Field): (r: ConfirmationAnswer)
    ensures r == MissingAppointmentId <==> !Truthy(appointmentId)
    ensures r.UpdateStatus? ==> r.appointmentId == appointmentId
    ensures Truthy(appointmentId) && confirmation.Absent? ==> r == UpdateStatus(appointmentId, Cancelled)
    ensures r == HandlingFailed <==> Truthy(appointmentId) && confirmation.Arr?
    ensures r.UpdateStatus? <==> Truthy(appointmentId) && !confirmation.Arr?
    ensures r.UpdateStatus? ==>
              (StatusName(r.status) == "confirmed" <==> confirmation.Str? && ToLower(Trim(confirmation.s)) == "yes")
  {
    if !Truthy(appointmentId) then MissingAppointmentId
    else
      match confirmation
      case Absent => UpdateStatus(appointmentId, ReplyStatus(""))
      case Str(s) => UpdateStatus(appointmentId, ReplyStatus(s))
      case Arr(_) => HandlingFailed
  }

  /** A reply confirms exactly when, stripped of surrounding whitespace, it is
      "yes" in any mix of cases; everything else, the empty reply included,
      cancels. */
  lemma ConfirmedIff(reply: string)
    ensures ReplyStatus(reply) == Confirmed <==>
              var t := Trim(reply);
              |t| == 3 && (t[0] == 'y' || t[0] == 'Y') && (t[1] == 'e' || t[1] == 'E')
              && (t[2] == 's' || t[2] == 'S')
  {
    var t := Trim(reply);
    var l := ToLower(t);
    if |t| == 3 {
      assert l == [LowerChar(t[0]), LowerChar(t[1]), LowerChar(t[2])];
    }
  }

  /** Whitespace around a reply does not change its meaning. */
  lemma ReplyIgnoresSurroundingWhitespace(w1: string, reply: string, w2: string)
    requires AllWhitespace(w1) && AllWhitespace(w2)
    ensures ReplyStatus(w1 + reply + w2) == ReplyStatus(reply)
  {
    TrimIgnoresSurrounding(w1, reply, w2);
  }

  /** Two replies that agree after lowercasing get the same status. */
  lemma ReplyIgnoresCase(a: string, b: string)
    requires ToLower(a) == ToLower(b)
    ensures ReplyStatus(a) == ReplyStatus(b)
  {
    LowerTrimCommute(a);
    LowerTrimCommute(b);
  }
}
