/** `POST /send-reminders`: inside the call window, read tomorrow's
    appointments from every service calendar and place one confirmation call
    for each appointment that is still open and has a phone number. */
module Reminders {
  import opened JsText
  import opened Services

  datatype Contact = Contact(phone: Option<string>)

  /** The fields of a listed GoHighLevel appointment the sweep reads. */
  datatype Appointment = Appointment(
    id: string, status: Option<string>, contact: Option<Contact>, phone: Option<string>)

  /** One outbound call: the number dialled and the appointment id carried in
      its `handle-confirmation` callback URL. */
  datatype ReminderCall = ReminderCall(phone: string, appointmentId: string)

  datatype SweepAnswer =
    | OutsideCallWindow                  // 429 'Outside call window'
    | CallsScheduled(calls: seq<ReminderCall>)  // 'Outbound calls scheduled.'

  /** `hr < 9 || hr >= 18` rejects the sweep. */
  predicate InCallWindow(hour: int) {
    9 <= hour < 18
  }

  /** `['new', 'booked', 'confirmed'].includes(a.status)`. */
  predicate IsOpenStatus(status: Option<string>) {
    status == Some("new") || status == Some("booked") || status == Some("confirmed")
  }

  /** A truthy optional string: present and non-empty. */
  predicate Present(s: Option<string>) {
    s.Some? && s.value != ""
  }

  /** `a.contact?.phone || a.phone`, kept only when truthy. */
  function ContactPhone(a: Appointment): (r: Option<string>)
    ensures r.Some? ==> r.value != ""
    ensures r.None? <==> !(a.contact.Some? && Present(a.contact.value.phone)) && !Present(a.phone)
    ensures a.contact.Some? && Present(a.contact.value.phone) ==> r == a.contact.value.phone
    ensures r.Some? && r != a.phone ==> a.contact.Some? && r == a.contact.value.phone
  {
    var fromContact := if a.contact.Some? then a.contact.value.phone else None;
    if Present(fromContact) then fromContact
    else if Present(a.phone) then a.phone
    else None
  }

  /** The appointment gets a call. */
  predicate IsDue(a: Appointment) {
    IsOpenStatus(a.status) && ContactPhone(a).Some?
  }

  function CallFor(a: Appointment): ReminderCall
    requires IsDue(a)
  {
    ReminderCall(ContactPhone(a).value, a.id)
  }

  /** The calls a pass over `appts` places, in order. */
  function DueCalls(appts: seq<Appointment>): seq<ReminderCall> {
    if appts == [] then []
    else
      var last := appts[|appts| - 1];
      DueCalls(appts[..|appts| - 1]) + (if IsDue(last) then [CallFor(last)] else [])
  }

  /** `listRes.data.appointments || []`. */
  function Listed(listing: Option<seq<Appointment>>): seq<Appointment> {
    if listing.Some? then listing.value else []
  }

  /** `allAppts`: each calendar's listing, in calendar order. */
  function Gathered(calendars: seq<string>, list: string -> Option<seq<Appointment>>): seq<Appointment> {
    if calendars == [] then []
    else Gathered(calendars[..|calendars| - 1], list) + Listed(list(calendars[|calendars| - 1]))
  }

  /** What one sweep at `hour` does, when calendar `c` lists `list(c)`. */
  function Sweep(hour: int, list: string -> Option<seq<Appointment>>): (r: SweepAnswer)
    ensures r == OutsideCallWindow <==> hour < 9 || hour >= 18
  {
    if !InCallWindow(hour) then OutsideCallWindow
    else CallsScheduled(DueCalls(Gathered(CalendarIds(), list)))
  }

  /** The route body: the hour gate, the loop over the calendars collecting
      `allAppts` with `push`, and the loop over `allAppts` that skips with
      `continue` and places a call for the rest. */
  method SendReminders(hour: int, list: string -> Option<seq<Appointment>>) returns (r: SweepAnswer)
    ensures r == Sweep(hour, list)
  {
    if hour < 9 || hour >= 18 {
      return OutsideCallWindow;
    }
    var calendars := CalendarIds();
    var allAppts: seq<Appointment> := [];
    for i := 0 to |calendars|
      invariant allAppts == Gathered(calendars[..i], list)
    {
      var listRes := list(calendars[i]);
      GatheredStep(calendars, i, list);
      allAppts := allAppts + Listed(listRes);
    }
    assert calendars[..|calendars|] == calendars;
    var calls: seq<ReminderCall> := [];
    for j := 0 to |allAppts|
      invariant calls == DueCalls(allAppts[..j])
    {
      var a := allAppts[j];
      DueCallsStep(allAppts, j);
      if !IsOpenStatus(a.status) {
        continue;
      }
      var phone := ContactPhone(a);
      if phone.None? {
        continue;
      }
      calls := calls + [ReminderCall(phone.value, a.id)];
    }
    assert allAppts[..|allAppts|] == allAppts;
    r := CallsScheduled(calls);
  }

  /** One more calendar adds its listing at the end. */
  lemma GatheredStep(calendars: seq<string>, i: nat, list: string -> Option<seq<Appointment>>)
    requires i < |calendars|
    ensures Gathered(calendars[..i + 1], list) == Gathered(calendars[..i], list) + Listed(list(calendars[i]))
  {
    assert calendars[..i + 1][..i] == calendars[..i];
  }

  /** One more appointment adds its call, if it is due, at the end. */
  lemma DueCallsStep(appts: seq<Appointment>, j: nat)
    requires j < |appts|
    ensures DueCalls(appts[..j + 1]) == DueCalls(appts[..j]) + (if IsDue(appts[j]) then [CallFor(appts[j])] else [])
  {
    assert appts[..j + 1][..j] == appts[..j];
  }

  /** A pass over two runs of appointments is the pass over each in turn. */
  lemma {:induction false} DueCallsAppend(a: seq<Appointment>, b: seq<Appointment>)
    ensures DueCalls(a + b) == DueCalls(a) + DueCalls(b)
  {
    if b == [] {
      assert a + b == a;
    } else {
      var last := b[|b| - 1];
      assert (a + b)[..|a + b| - 1] == a + b[..|b| - 1];
      DueCallsAppend(a, b[..|b| - 1]);
    }
  }

  /** The positions of the due appointments, in increasing order. */
  function DueIndices(appts: seq<Appointment>): seq<nat> {
    if appts == [] then []
    else DueIndices(appts[..|appts| - 1]) + (if IsDue(appts[|appts| - 1]) then [|appts| - 1] else [])
  }

  /** The calls follow the input: the k-th call is for the appointment at
      the k-th due position. */
  lemma {:induction false} DueCallsSelect(appts: seq<Appointment>)
    ensures |DueCalls(appts)| == |DueIndices(appts)|
    ensures forall k :: 0 <= k < |DueIndices(appts)| ==>
              DueIndices(appts)[k] < |appts| && IsDue(appts[DueIndices(appts)[k]])
              && DueCalls(appts)[k] == CallFor(appts[DueIndices(appts)[k]])
  {
    if appts != [] {
      var init := appts[..|appts| - 1];
      DueCallsSelect(init);
      assert forall i :: 0 <= i < |init| ==> init[i] == appts[i];
    }
  }

  /** The due positions increase, and every due appointment, and no other,
      is among them. */
  lemma {:induction false} DueIndicesOrdered(appts: seq<Appointment>)
    ensures forall k :: 0 <= k < |DueIndices(appts)| ==> DueIndices(appts)[k] < |appts|
    ensures forall k, l :: 0 <= k < l < |DueIndices(appts)| ==> DueIndices(appts)[k] < DueIndices(appts)[l]
    ensures forall i :: 0 <= i < |appts| && IsDue(appts[i]) ==> i in DueIndices(appts)
  {
    if appts != [] {
      var init := appts[..|appts| - 1];
      DueIndicesOrdered(init);
      assert forall i :: 0 <= i < |init| ==> init[i] == appts[i];
    }
  }

  /** A call is placed for a number exactly when some open appointment
      resolves to it. */
  lemma DueCallsMembership(appts: seq<Appointment>, c: ReminderCall)
    ensures c in DueCalls(appts) <==> exists i :: 0 <= i < |appts| && IsDue(appts[i]) && CallFor(appts[i]) == c
  {
    DueCallsSelect(appts);
    DueIndicesOrdered(appts);
    var idx := DueIndices(appts);
    if c in DueCalls(appts) {
      var k :| 0 <= k < |DueCalls(appts)| && DueCalls(appts)[k] == c;
      assert IsDue(appts[idx[k]]) && CallFor(appts[idx[k]]) == c;
    }
    if exists i :: 0 <= i < |appts| && IsDue(appts[i]) && CallFor(appts[i]) == c {
      var i :| 0 <= i < |appts| && IsDue(appts[i]) && CallFor(appts[i]) == c;
      var k :| 0 <= k < |idx| && idx[k] == i;
      assert DueCalls(appts)[k] == c;
    }
  }

  /** An appointment that is not due adds no call wherever it stands. */
  lemma SkippedAppointment(a: seq<Appointment>, x: Appointment, b: seq<Appointment>)
    requires !IsDue(x)
    ensures DueCalls(a + [x] + b) == DueCalls(a + b)
  {
    DueCallsAppend(a + [x], b);
    DueCallsAppend(a, [x]);
    DueCallsAppend(a, b);
    assert [x][..0] == [];
  }

  /** Each calendar's due calls, calendar after calendar. */
  function PerCalendarCalls(calendars: seq<string>, list: string -> Option<seq<Appointment>>): seq<ReminderCall> {
    if calendars == [] then []
    else PerCalendarCalls(calendars[..|calendars| - 1], list) + DueCalls(Listed(list(calendars[|calendars| - 1])))
  }

  /** Filtering the gathered listings is filtering each calendar's listing
      and concatenating the results in calendar order. */
  lemma {:induction false} GatheredCallsPerCalendar(calendars: seq<string>, list: string -> Option<seq<Appointment>>)
    ensures DueCalls(Gathered(calendars, list)) == PerCalendarCalls(calendars, list)
  {
    if calendars != [] {
      var init := calendars[..|calendars| - 1];
      GatheredCallsPerCalendar(init, list);
      DueCallsAppend(Gathered(init, list), Listed(list(calendars[|calendars| - 1])));
    }
  }

  /** Inside the window the sweep places, calendar by calendar, the calls for
      that calendar's due appointments; outside it places none. */
  lemma SweepCalls(hour: int, list: string -> Option<seq<Appointment>>)
    ensures InCallWindow(hour) ==> Sweep(hour, list) == CallsScheduled(PerCalendarCalls(CalendarIds(), list))
    ensures !InCallWindow(hour) ==> Sweep(hour, list) == OutsideCallWindow
  {
    GatheredCallsPerCalendar(CalendarIds(), list);
  }
}
