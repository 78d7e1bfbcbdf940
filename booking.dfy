/** The validation prologue of `POST /check-and-book`: the ordered checks on
    the request body and the construction of the ISO slot that the route then
    looks for among the calendar's free slots and books. */
module Booking {
  import opened JsText
  import opened Time12
  import opened Services

  /** The fields of the request body the route reads. */
  datatype BookingRequest = BookingRequest(name: Field, phone: Field, date: Field, time: Field, service: Field)

  /** The route's early answers; every one but `SlotUnavailable` (409) and
      `BookingFailed` (500) is a 400. */
  datatype BookingError =
    | MissingService
    | UnknownService(service: string)
    | MissingFields
    | DateFormat
    | TimeFormat
    | SlotUnavailable  // 409: the slot is not among the calendar's free slots
    | BookingFailed  // an exception inside the handler: the catch answers 500

  function StatusCode(e: BookingError): (code: nat)
    ensures code == 400 || code == 409 || code == 500
    ensures code == 500 <==> e.BookingFailed?
    ensures code == 409 <==> e.SlotUnavailable?
  {
    if e.BookingFailed? then 500 else if e.SlotUnavailable? then 409 else 400
  }

  function Message(e: BookingError): string {
    match e
    case MissingService => "Missing service."
    case UnknownService(s) => "Unknown service: " + s
    case MissingFields => "Missing fields."
    case DateFormat => "Date must be YYYY-MM-DD"
    case TimeFormat => "Time must be H:MM AM/PM"
    case SlotUnavailable => "Selected time slot unavailable"
    case BookingFailed => "Booking failed."
  }

  /** Every failure has its own text, so a client can tell the answers
      apart, and an unknown service is named in its message. */
  lemma MessagesDistinct(e1: BookingError, e2: BookingError)
    requires e1 != e2
    ensures Message(e1) != Message(e2)
  {
    var prefix := "Unknown service: ";
    if e1.UnknownService? && e2.UnknownService? {
      assert Message(e1)[|prefix|..] == e1.service;
      assert Message(e2)[|prefix|..] == e2.service;
    } else if e1.UnknownService? || e2.UnknownService? {
      var u, o := if e1.UnknownService? then e1 else e2, if e1.UnknownService? then e2 else e1;
      assert Message(u)[0] == 'U';
      assert Message(o)[0] != 'U';
    }
  }

  /** The calendar to book in, as `SERVICE_CAL_IDS[service]` evaluated it,
      and the slot's start, `YYYY-MM-DDTHH:MM:00-05:00`. */
  datatype Slot = Slot(calendar: PropertyValue, isoSlot: string)

  /** `/^\d{4}-\d{2}-\d{2}$/.test(s)`; `\d` is an ASCII digit. */
  predicate IsDate(s: string) {
    |s| == 10 && AllDigits(s[..4]) && s[4] == '-' && AllDigits(s[5..7]) && s[7] == '-'
    && AllDigits(s[8..])
  }

  /** The date check accepts exactly four digits, a dash, two digits, a dash
      and two digits; the digits are not checked against a calendar. */
  lemma DatePattern(s: string)
    ensures IsDate(s) <==>
              exists y, m, d :: |y| == 4 && |m| == 2 && |d| == 2
                && AllDigits(y) && AllDigits(m) && AllDigits(d) && s == y + "-" + m + "-" + d
  {
    if IsDate(s) {
      assert s == s[..4] + "-" + s[5..7] + "-" + s[8..];
    }
  }

  /** `if (Array.isArray(v)) v = v.join(''); v = v.trim();` for the date and
      the time; `None` where `v` is undefined and `.trim()` throws. */
  function Normalized(f: Field): (r: Option<string>)
    ensures r.None? <==> f.Absent?
    ensures f.Str? ==> r == Some(Trim(f.s))
    ensures f.Arr? ==> r == Some(Trim(Join(f.parts)))
  {
    match f
    case Absent => None
    case Str(s) => Some(Trim(s))
    case Arr(parts) => Some(Trim(Join(parts)))
  }

  /** `const [h24,min] = to24h(time).split(':'); `${date}T${h24}:${min}:00-05:00``. */
  function IsoSlot(date: string, time: string): string
    requires IsTime12(time)
  {
    To24hHalves(time);
    var hm := To24h(time);
    var h24, min := hm[..2], hm[3..];
    date + "T" + h24 + ":" + min + ":00-05:00"
  }

  /** The route's checks in the order it makes them; the first that fails
      decides the answer, and a slot is built only when all pass. The
      service is looked up as the bracket lookup does it, inherited members
      included. */
  function ValidateBooking(req: BookingRequest): Result<Slot, BookingError> {
    if !Truthy(req.service) then Failure(MissingService)
    else if !req.service.Str? then Failure(BookingFailed)  // an array has no `.trim`
    else
      var service := Trim(req.service.s);
      var calendar := PropertyLookupAsWritten(service);
      if calendar.Undefined? then Failure(UnknownService(service))
      else
        var date, time := Normalized(req.date), Normalized(req.time);
        if date.None? || time.None? then Failure(BookingFailed)
        else if !Truthy(req.name) || !Truthy(req.phone) || date.value == "" || time.value == "" then
          Failure(MissingFields)
        else if !IsDate(date.value) then Failure(DateFormat)
        else if !IsTime12(time.value) then Failure(TimeFormat)
        else Success(Slot(calendar, IsoSlot(date.value, time.value)))
  }

  /** The service is a non-empty string that, once trimmed, names one of the
      ten calendars or a member inherited from `Object.prototype`: exactly the
      names the bracket lookup answers with something other than `undefined`. */
  predicate ServicePasses(req: BookingRequest) {
    req.service.Str? && req.service.s != "" &&
    (LookupService(Trim(req.service.s)).Some? || Trim(req.service.s) in ObjectPrototypeMembers)
  }

  /** The service is a non-empty string that names one of the ten calendars
      once trimmed. */
  predicate ServiceKnown(req: BookingRequest) {
    req.service.Str? && req.service.s != "" && LookupService(Trim(req.service.s)).Some?
  }

  /** The trimmed service is an inherited `Object.prototype` member. */
  predicate InheritedService(req: BookingRequest) {
    req.service.Str? && PropertyLookupAsWritten(Trim(req.service.s)).InheritedMember?
  }

  /** Name and phone given, date and time non-empty once joined and trimmed. */
  predicate FieldsFilled(req: BookingRequest)
    requires req.date != Absent && req.time != Absent
  {
    Truthy(req.name) && Truthy(req.phone)
    && Normalized(req.date).value != "" && Normalized(req.time).value != ""
  }

  /** The validator answers with error `e`. */
  predicate Fails(req: BookingRequest, e: BookingError) {
    var r := ValidateBooking(req);
    r.Failure? && r.error == e
  }

  /** Each answer of the validator against the checks that decide it: a check
      is reached only when every earlier one passed. */
  lemma ValidationOrder(req: BookingRequest)
    ensures Fails(req, MissingService) <==> !Truthy(req.service)
    ensures ValidateBooking(req).Failure? && ValidateBooking(req).error.UnknownService? <==>
              req.service.Str? && req.service.s != "" && !ServicePasses(req)
    ensures Fails(req, BookingFailed) <==>
              req.service.Arr? || (ServicePasses(req) && (req.date == Absent || req.time == Absent))
    ensures Fails(req, MissingFields) <==>
              ServicePasses(req) && req.date != Absent && req.time != Absent && !FieldsFilled(req)
    ensures Fails(req, DateFormat) <==>
              ServicePasses(req) && req.date != Absent && req.time != Absent && FieldsFilled(req)
              && !IsDate(Normalized(req.date).value)
    ensures Fails(req, TimeFormat) <==>
              ServicePasses(req) && req.date != Absent && req.time != Absent && FieldsFilled(req)
              && IsDate(Normalized(req.date).value) && !IsTime12(Normalized(req.time).value)
    ensures ValidateBooking(req).Success? <==>
              ServicePasses(req) && req.date != Absent && req.time != Absent && FieldsFilled(req)
              && IsDate(Normalized(req.date).value) && IsTime12(Normalized(req.time).value)
  {
    if Truthy(req.service) && req.service.Str? {
      var calendar := PropertyLookupAsWritten(Trim(req.service.s));
      if !calendar.Undefined? && req.date != Absent && req.time != Absent {
        var date, time := Normalized(req.date).value, Normalized(req.time).value;
        if FieldsFilled(req) && IsDate(date) && IsTime12(time) {
          assert ValidateBooking(req) == Success(Slot(calendar, IsoSlot(date, time)));
        }
      }
    }
  }

  /** An unknown service is reported under its trimmed name. */
  lemma UnknownServiceNamed(req: BookingRequest)
    requires ValidateBooking(req).Failure? && ValidateBooking(req).error.UnknownService?
    ensures req.service.Str? && ValidateBooking(req).error.service == Trim(req.service.s)
    ensures Message(ValidateBooking(req).error) == "Unknown service: " + Trim(req.service.s)
  {
  }

  /** The slot's text: the date, `T`, the whole 24-hour time and `:00-05:00`,
      so the time sits at offsets 11-15 after a ten-character date. */
  lemma IsoSlotLayout(date: string, time: string)
    requires |date| == 10 && IsTime12(time)
    ensures IsoSlot(date, time) == date + "T" + To24h(time) + ":00-05:00"
    ensures |IsoSlot(date, time)| == 25
    ensures IsoSlot(date, time)[..10] == date && IsoSlot(date, time)[11..16] == To24h(time)
  {
    To24hHalves(time);
    var hm := To24h(time);
    assert hm == hm[..2] + ":" + hm[3..];
    var iso := IsoSlot(date, time);
    assert iso == date + "T" + hm + ":00-05:00";
    assert iso[..10] == date;
    assert iso[11..16] == hm;
  }

  /** A request that passes every check is booked. The slot is the
      normalised date, `T`, the 24-hour time and the fixed `:00-05:00`, in
      whatever the bracket lookup gave for the trimmed service, which is one
      of the ten calendars when it is an own property; the date and the
      requested 12-hour time can be read back from it. */
  lemma BookedSlot(req: BookingRequest)
    requires ServicePasses(req) && req.date != Absent && req.time != Absent && FieldsFilled(req)
             && IsDate(Normalized(req.date).value) && IsTime12(Normalized(req.time).value)
    ensures ValidateBooking(req).Success?
    ensures var slot := ValidateBooking(req).value;
            var date, time := Normalized(req.date).value, Normalized(req.time).value;
            IsTime12(time)
            && slot.isoSlot == date + "T" + To24h(time) + ":00-05:00"
            && slot.calendar == PropertyLookupAsWritten(Trim(req.service.s))
            && (slot.calendar.OwnProperty? ==> slot.calendar.calendarId in CalendarIds())
            && |slot.isoSlot| == 25 && slot.isoSlot[..10] == date
            && IsTime24(slot.isoSlot[11..16]) && To12h(slot.isoSlot[11..16]) == time
  {
    ValidationOrder(req);
    var date, time := Normalized(req.date).value, Normalized(req.time).value;
    var calendar := PropertyLookupAsWritten(Trim(req.service.s));
    assert ValidateBooking(req) == Success(Slot(calendar, IsoSlot(date, time)));
    LookupServiceFinds(Trim(req.service.s));
    IsoSlotLayout(date, time);
    To24hRoundTrip(time);
  }

  /** The validator followed by the availability test against the day's
      free slots as the slots endpoint lists them (`slotsRes.data[date]?.slots`,
      absent when the day has no entry). */
  function CheckSlot(req: BookingRequest, daySlots: Option<seq<string>>): (r: Result<Slot, BookingError>)
    ensures r.Success? ==> ValidateBooking(req) == r && daySlots.Some? && r.value.isoSlot in daySlots.value
    ensures r == Failure(SlotUnavailable) <==>
              ValidateBooking(req).Success?
              && (daySlots.None? || ValidateBooking(req).value.isoSlot !in daySlots.value)
    ensures ValidateBooking(req).Failure? ==> r == ValidateBooking(req)
    ensures ValidateBooking(req).Success? && daySlots.Some? && ValidateBooking(req).value.isoSlot in daySlots.value
            ==> r == ValidateBooking(req)
  {
    var v := ValidateBooking(req);
    if v.Failure? then v
    else
      var slots := if daySlots.Some? then daySlots.value else [];
      if v.value.isoSlot !in slots then Failure(SlotUnavailable) else v
  }

  /** The booking rules as evidently intended: only the ten services pass
      the service check, and a missing date or time is answered "Missing
      fields." rather than by an exception. */
  function ValidateBookingIntended(req: BookingRequest): (r: Result<Slot, BookingError>)
    ensures r == Failure(MissingService) <==> !Truthy(req.service)
    ensures r == Failure(BookingFailed) <==> req.service.Arr?
    ensures r.Failure? && r.error.UnknownService? <==>
              req.service.Str? && req.service.s != "" && !ServiceKnown(req)
    ensures r == Failure(MissingFields) <==>
              ServiceKnown(req) && (req.date == Absent || req.time == Absent || !FieldsFilled(req))
    ensures r.Success? ==> r.value.calendar.OwnProperty? && r.value.calendar.calendarId in CalendarIds()
  {
    if !Truthy(req.service) then Failure(MissingService)
    else if !req.service.Str? then Failure(BookingFailed)
    else
      var service := Trim(req.service.s);
      var calendarId := LookupService(service);
      LookupServiceFinds(service);
      if calendarId.None? then Failure(UnknownService(service))
      else
        var date, time := Normalized(req.date), Normalized(req.time);
        if date.None? || time.None? || !Truthy(req.name) || !Truthy(req.phone)
           || date.value == "" || time.value == "" then
          Failure(MissingFields)
        else if !IsDate(date.value) then Failure(DateFormat)
        else if !IsTime12(time.value) then Failure(TimeFormat)
        else Success(Slot(OwnProperty(calendarId.value), IsoSlot(date.value, time.value)))
  }

  /** The two validators differ only where the code is wrong: on a request
      with a date and a time and a service that is no inherited member, the
      code answers as intended. */
  lemma IntendedAgrees(req: BookingRequest)
    requires req.date != Absent && req.time != Absent && !InheritedService(req)
    ensures ValidateBookingIntended(req) == ValidateBooking(req)
  {
    if Truthy(req.service) && req.service.Str? {
      var service := Trim(req.service.s);
      var calendar := PropertyLookupAsWritten(service);
      if calendar.OwnProperty? {
        assert LookupService(service) == Some(calendar.calendarId);
      } else {
        assert calendar.Undefined? && LookupService(service).None?;
      }
    }
  }

  /** As written, a body without a date reaches `date.trim()` on undefined
      and is answered 500 "Booking failed." before the missing-field check. */
  lemma MissingDateCrashes()
    ensures var req := BookingRequest(Str("Ana"), Str("+15550100"), Absent, Str("9:00 AM"), Str("Microneedling"));
            ValidateBooking(req) == Failure(BookingFailed)
            && StatusCode(ValidateBooking(req).error) == 500
            && ValidateBookingIntended(req) == Failure(MissingFields)
  {
    var service := "Microneedling";
    var req := BookingRequest(Str("Ana"), Str("+15550100"), Absent, Str("9:00 AM"), Str(service));
    TrimKeeps(service);
    assert ServiceCalendarIds[0].0 == service;
    assert LookupService(service) == Some(ServiceCalendarIds[0].1);
    assert ServiceKnown(req) && ServicePasses(req);
    ValidationOrder(req);
  }

  /** As written, a service named after an inherited member such as
      `"toString"` passes the service check: the request goes on to the field
      checks and, when they pass, is booked against that member, where the
      intended rules answer "Unknown service: toString". */
  lemma InheritedServicePasses(req: BookingRequest)
    requires req.service == Str("toString")
    ensures !(ValidateBooking(req).Failure? && ValidateBooking(req).error.UnknownService?)
    ensures ValidateBookingIntended(req) == Failure(UnknownService("toString"))
    ensures req.date != Absent && req.time != Absent && FieldsFilled(req)
            && IsDate(Normalized(req.date).value) && IsTime12(Normalized(req.time).value)
            ==> ValidateBooking(req).Success?
                && ValidateBooking(req).value.calendar == InheritedMember("toString")
  {
    var service := "toString";
    TrimKeeps(service);
    InheritedNamePassesLookup();
    assert ServicePasses(req) && !ServiceKnown(req);
    ValidationOrder(req);
  }
}
