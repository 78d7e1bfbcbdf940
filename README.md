# ai-receptionist-backend: a Dafny model of the request logic in `index.js`

`index.js` is an Express server for an aesthetics clinic. Its four routes
book appointments in GoHighLevel, place reminder calls through Bland, take
the patient's spoken reply, and send an SMS when a call goes unanswered.
This project models the decisions those routes make. Outside that, the
routes only pass data between HTTP services.

- `JsText` (`jstext.dfy`): the JavaScript behaviour the handlers rely on.
  - A request-body field is modelled as absent, a string or an array of strings (`Field`).
  - Truthiness and `Array.prototype.join('')` are modelled.
  - `String.prototype.trim` uses the ECMAScript whitespace and line-terminator set.
  - `toLowerCase` is modelled on ASCII letters only.
  - Lemmas prove `Trim` is idempotent and removes exactly the surrounding whitespace. Further lemmas prove that lowercasing commutes with trimming.
- `Time12` (`time12.dfy`): `to24h` (index.js:43-49) applied to the strings the time pattern accepts (index.js:66). It is proved to produce `HH:MM` and to be injective. Its inverse `To12h` is proved, so the 12-hour time can be recovered from the slot.
- `Services` (`services.dfy`): the `SERVICE_CAL_IDS` table (index.js:30-41).
  - The own-property lookup and `Object.values` are modelled.
  - `PropertyLookupAsWritten` models what the bracket lookup on a plain object literal actually returns.
- `Booking` (`booking.dfy`): the `/check-and-book` prologue (index.js:54-76, 88-91).
  - `ValidateBooking` runs the checks in the code's order, each with its error and status code. It looks the service up the way the bracket lookup does, so inherited `Object.prototype` names pass.
  - It then builds the ISO slot and runs the availability test against a given list of free slots.
  - `ValidateBookingIntended` corrects the two booking findings below: only the ten services pass, and a missing date or time is a missing field.
- `Confirmation` (`confirmation.dfy`): `/handle-confirmation` (index.js:191-194). It maps the reply to `confirmed` or `cancelled`.
- `Reminders` (`reminders.dfy`): `/send-reminders` (index.js:138-182).
  - `SendReminders` is imperative: the calendar loop that `push`es the listings, then the appointment loop that skips with `continue`.
  - It is proved equal to the pure `Sweep`. Lemmas prove the order, membership and per-calendar structure of the calls it places.
- `CallStatus` (`call_status.dfy`): `/call-status` (index.js:209-222). It decides whether to send the fallback SMS, both as written and as intended.

The model covers what the route code does. It has only the two reply
outcomes, `confirmed` and `cancelled`. Any reply other than "yes"
cancels, including "reschedule" and an empty reply. There is no attempt
counter and no retry state, because `index.js` keeps no state between
requests.

## Model

| member | source | states |
|---|---|---|
| JsText.TrimStartSpec | index.js:57 | trimming the start keeps a suffix of the string that does not begin with whitespace, and removes only whitespace |
| JsText.TrimEndSpec | index.js:57 | trimming the end keeps a prefix of the string that does not end with whitespace, and removes only whitespace |
| JsText.TrimEnds | index.js:64 | the result of `trim` is no longer than the input and neither starts nor ends with whitespace |
| JsText.TrimIsInfix | index.js:64 | trimming leaves an infix whose removed prefix and suffix are whitespace; the result is empty exactly when the string is all whitespace |
| JsText.TrimIgnoresSurrounding | index.js:193 | whitespace added around any string is removed again by `trim`: the result equals trimming the string alone |
| JsText.TrimIdempotent | index.js:57 | trimming twice equals trimming once |
| JsText.ToLower | index.js:193 | lowercasing keeps the length and maps each character by itself, capitals A-Z to their small letters |
| JsText.LowerTrimCommute | index.js:193 | lowercasing then trimming equals trimming then lowercasing |
| Time12.Pad2OfNumber | index.js:45-48 | `String(Number(dd)).padStart(2,'0')` gives the two digits back |
| Time12.TimePattern | index.js:66 | the time check accepts exactly an hour 1-9 or 10-12, a colon, a minute 00-59, one space and `AM` or `PM` |
| Time12.To24hFormat | index.js:43-49 | for every accepted 12-hour time the result is `HH:MM`, the minutes are copied, 12 AM becomes 00, 12 PM stays 12, other PM hours add 12 and AM hours are kept |
| Time12.To24hRoundTrip | index.js:43-49 | converting back to 12-hour form gives the original accepted time |
| Time12.To24hInjective | index.js:43-49 | two different accepted times never give the same 24-hour time, so different requests ask for different slots |
| Time12.To12hRoundTrip | index.js:43-49 | every valid 24-hour `HH:MM` comes from exactly one accepted 12-hour time |
| Services.FindSpec | index.js:58 | an own-property lookup succeeds exactly for names in the table and returns an entry for that name |
| Services.LookupServiceFinds | index.js:30-59 | a calendar is found exactly for the ten service names spelled as listed, and it is one of the calendars a reminder sweep reads |
| Services.CalendarIds | index.js:146 | `Object.values(SERVICE_CAL_IDS)` lists the ten calendar ids in declaration order |
| Services.ServicesDistinct | index.js:30-41 | no two services share a name or a calendar |
| Services.PropertyLookupAsWritten | index.js:58-59 | the bracket lookup returns the own value when there is one; otherwise it returns an inherited `Object.prototype` member when the name is one |
| Services.InheritedNamePassesLookup | index.js:58-59 | "toString" is no service, yet the lookup as written returns a truthy member for it |
| Booking.MessagesDistinct | index.js:55-131 | no two failures share a message text, so an unknown service's message names it and tells it apart from every other answer |
| Booking.StatusCode | index.js:55-131 | the validation failures are 400, an unavailable slot is 409, and only a thrown exception is 500 |
| Booking.Normalized | index.js:62-64 | arrays are joined and then trimmed, strings are trimmed, and only an absent value fails (by throwing) |
| Booking.DatePattern | index.js:65-69 | the date check accepts exactly 4 digits, `-`, 2 digits, `-`, 2 digits, without checking that the date exists on the calendar |
| Booking.ValidationOrder | index.js:54-72 | each answer of the validator holds exactly when every earlier check passed and its own check failed: missing service, unknown service (the bracket lookup gives `undefined`), exception, missing fields, date format, time format, success |
| Booking.UnknownServiceNamed | index.js:57-59 | an unknown service is reported as "Unknown service: " followed by its trimmed name |
| Booking.IsoSlotLayout | index.js:75-76 | the slot is the date, `T`, the 24-hour time and `:00-05:00`, 25 characters long, with the time at offsets 11-15 |
| Booking.BookedSlot | index.js:57-76 | a request that passes every check is booked, using what the bracket lookup gives for the trimmed service (one of the ten calendars when it is an own property) and the slot `date + "T" + to24h(time) + ":00-05:00"`, from which the date and the requested time can be read back |
| Booking.CheckSlot | index.js:88-91 | a booking goes ahead exactly when validation passes and the slot is among the day's listed free slots; a validated slot that is not listed, or a day with no entry, is answered 409, and a validation error is passed on |
| Booking.ValidateBookingIntended | index.js:55-76 | as intended, a missing or empty service is answered "Missing service." first; an unknown service is exactly one that is not among the ten listed names; a missing, empty or absent name, phone, date or time is answered "Missing fields."; a 500 comes only from an array-valued service; a booked calendar is always one of the ten |
| Booking.IntendedAgrees | index.js:55-76 | the code answers as intended on every request that has a date and a time and does not name an inherited member |
| Booking.MissingDateCrashes | index.js:62-68 | a body without a date is answered 500 as written and "Missing fields." as intended |
| Booking.InheritedServicePasses | index.js:57-59 | as written, the service "toString" is never reported unknown, and with valid fields it is booked against the inherited member; as intended it is answered "Unknown service: toString" |
| Confirmation.HandleConfirmation | index.js:191-194 | a missing id is answered 400 first; an absent reply cancels; a non-string reply fails; otherwise the update goes to the id from the query with status "confirmed" exactly when the trimmed, lowercased reply is "yes" |
| Confirmation.ConfirmedIff | index.js:193-194 | the reply confirms exactly when, once trimmed, it is "yes" in any mix of cases; every other reply cancels, including an empty one |
| Confirmation.ReplyIgnoresSurroundingWhitespace | index.js:193 | whitespace around a reply does not change its status |
| Confirmation.ReplyIgnoresCase | index.js:193 | replies that are equal after lowercasing get the same status |
| Reminders.ContactPhone | index.js:159 | the contact's phone is used when it is non-empty, otherwise the appointment's own phone, and nothing when both are missing or empty |
| Reminders.Sweep | index.js:138-139 | the sweep refuses exactly when the hour is below 9 or at least 18 |
| Reminders.SendReminders | index.js:137-182 | the two loops (gather the listings in calendar order, then skip the closed or phoneless appointments) return exactly the pure `Sweep` |
| Reminders.DueCallsAppend | index.js:157-180 | a pass over two runs of appointments is the pass over each run in turn |
| Reminders.DueCallsSelect | index.js:157-160 | there are as many calls as due appointments, and the k-th call is for the appointment at the k-th due position |
| Reminders.DueIndicesOrdered | index.js:157-160 | the due positions increase, so the calls keep the input order, and every appointment that is open and has a phone is among them |
| Reminders.DueCallsMembership | index.js:157-160 | a call with a given number and id is placed exactly when some open appointment resolves to them |
| Reminders.SkippedAppointment | index.js:158-160 | an appointment that is not open or has no phone adds no call, wherever it stands |
| Reminders.GatheredCallsPerCalendar | index.js:145-160 | filtering the gathered listings equals filtering each calendar's listing and concatenating the results in calendar order |
| Reminders.SweepCalls | index.js:138-160 | inside the window the calls are, calendar by calendar, those of each calendar's due appointments; outside the window no calls are placed |
| CallStatus.HandleCallStatusAsWritten | index.js:211-221 | as written, the handler answers 500 exactly for `no-answer` and `busy`, and otherwise 200 without an SMS |
| CallStatus.HandleCallStatus | index.js:209-218 | as intended, the webhook is always acknowledged, and one SMS with the fixed text goes to the called number exactly for `no-answer` and `busy` |
| CallStatus.AsWrittenNeverSends | index.js:211-222 | as written, no status ever gets an SMS out, and the handler agrees with the intended one exactly for the statuses that need no SMS |
| CallStatus.BusyLine | index.js:211-216 | for a busy line the code answers 500 while the intended handler texts the called number |

## Left out

- Express routing, the response objects and the server start (index.js:9-11, 226-227) are left out. Each route's answer is a datatype value instead.
- The outbound HTTP calls to GoHighLevel and Bland are left out: the slot listing, create, status update and appointment listing, and the call placement (index.js:81-87, 113-126, 147-153, 166-176, 195-199).
  - The slot listing is a parameter: the day's slots, or none when the day has no entry.
  - The appointment listing is a function from calendar id to listing.
  - A placed call is modelled as a `ReminderCall` record holding the number and the appointment id of its callback URL.
- An HTTP failure partway through a sweep or a status update is left out. Such a failure gives a 500 after some calls may already have been placed.
- The start and end of the day in milliseconds, the end time that relabels a UTC string as `-05:00`, and the booking payload are left out (index.js:79-80, 93-109). They are `Date` arithmetic and a request body for a foreign service.
- The Twilio send itself is left out (index.js:212-216). Only the decision to send and the message sent are modelled.
- The `call-log.json` append is left out (index.js:178-179). It is file I/O.
- `new Date().getHours()` (index.js:138) depends on the host clock and time zone, so the hour is a parameter of the sweep.
- `getTomorrowRange` is not part of this model. It is referenced at index.js:142 but not defined in `index.js`. As written, every sweep inside the call window therefore throws a ReferenceError at index.js:142, inside the try, and is answered 500 "Failed to send reminders" (index.js:183-186) with no call placed: the same kind of fault as the undeclared `twilioClient`. `Reminders.SendReminders` and `Reminders.Sweep` model the route as intended there: they assume the function exists and take the listing function as tomorrow's listing.
- The `dotenv`/`process.env` configuration is left out (index.js:2, 14-27). It is environment input.
- The greeting script, `a.title` and `toLocaleTimeString` (index.js:162-164) are left out. They are prose and locale formatting with no effect on which calls are placed.
- Request fields holding JSON numbers, booleans, `null` or objects, and arrays with non-string elements, are left out. A field is modelled as absent, a string or an array of strings, which is what the url-encoded body parser produces.
- `toLowerCase` is modelled on ASCII letters only. No other character lowercases to "y", "e" or "s", so the confirmation decision is the same.
- `Services.LookupService` has no contract of its own. Its properties are the lemmas `Services.FindSpec` and `Services.LookupServiceFinds`.
- `JsText.Trim` has no contract of its own. Its properties are the lemmas `JsText.TrimStartSpec`, `JsText.TrimEndSpec`, `JsText.TrimEnds` and `JsText.TrimIsInfix`.
- `Time12.To24h` has no contract of its own. Its properties are the lemmas `Time12.To24hFormat`, `Time12.To24hRoundTrip` and `Time12.To24hInjective`.
- `Time12.IsTime12` has no contract of its own. It is the time pattern of index.js:66, and `Time12.TimePattern` characterises it.
- `Booking.IsDate` has no contract of its own. It is the date pattern of index.js:65, and `Booking.DatePattern` characterises it.
- `Booking.IsoSlot` has no contract of its own. It builds the slot of index.js:75-76, and `Booking.IsoSlotLayout` states its layout.
- `Booking.ValidateBooking` has no contract of its own. It is the check sequence of index.js:55-76, and `Booking.ValidationOrder`, `Booking.BookedSlot` and `Booking.IntendedAgrees` state its answers.
- `Booking.ValidateBooking` books an inherited member such as `toString` against that member. What GoHighLevel answers when the slots request carries such a `calendarId` is not modelled: the day's slots stay a parameter.
- `Confirmation.ReplyStatus` has no contract of its own. It is the reply mapping of index.js:193-194, and `Confirmation.ConfirmedIff`, `Confirmation.ReplyIgnoresSurroundingWhitespace` and `Confirmation.ReplyIgnoresCase` state its properties.
- `Reminders.DueCalls` and `Reminders.Gathered` have no contracts of their own. They are the filter of index.js:157-160 and the gathering of index.js:145-155, and `Reminders.SendReminders`, `Reminders.DueCallsSelect`, `Reminders.DueIndicesOrdered` and `Reminders.GatheredCallsPerCalendar` state their properties.
- `Booking.Message` has no contract of its own. It gives the texts of index.js:55, 59, 68, 70, 72, 90 and 131, and `Booking.MessagesDistinct` states that they tell the failures apart.
- `Reminders.Listed` has no contract of its own. It is the `listRes.data.appointments || []` of index.js:154, and `Reminders.SendReminders` and `Reminders.GatheredCallsPerCalendar` state the sweep over it.
- `JsText.Join` has no contract of its own. It is `parts.join('')` (index.js:62-63), the concatenation of the parts in order, and is used only by `Booking.Normalized`.

## Findings

| source | as written | input that shows it | evidently intended | confidence | as-written member | corrected member |
|---|---|---|---|---|---|---|
| index.js:62-68 | `date.trim()` and `time.trim()` run before the missing-field check, so an absent date or time throws and the catch answers 500 "Booking failed." | a body with name, phone, time "9:00 AM" and service "Microneedling" but no `date` | 400 "Missing fields.", as for an empty date | high; not executed | Booking.MissingDateCrashes | Booking.ValidateBookingIntended |
| index.js:211-216 | `twilioClient` is never declared (only `twilioLib` is required), so every `no-answer` or `busy` status throws and is answered 500 without an SMS | `status = "busy"` | send the fallback SMS to `phone_number` and answer 200 | high; not executed | CallStatus.HandleCallStatusAsWritten | CallStatus.HandleCallStatus |
| index.js:58-59 | `SERVICE_CAL_IDS[service]` also finds members inherited from `Object.prototype`, and those are truthy | `service = "toString"` | only the ten listed services pass; every other name is answered "Unknown service" | high; not executed | Booking.InheritedServicePasses | Booking.ValidateBookingIntended |

`Booking.ValidateBooking` keeps the code's order of checks and its bracket
lookup, inherited members included. `Booking.ValidateBookingIntended`
uses the own-property lookup, `Services.LookupService`, whose properties
are proved in `Services.LookupServiceFinds`. `Booking.IntendedAgrees`
proves that the two validators differ only on requests that lack a date or
a time or that name an inherited member.
