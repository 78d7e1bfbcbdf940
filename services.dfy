/** `SERVICE_CAL_IDS`: the ten bookable services and the GoHighLevel calendar
    that holds each one's appointments. */
module Services {
  import opened JsText

  /** The object literal's own properties, service name to calendar id, in
      declaration order (the order `Object.values` lists them). */
  const ServiceCalendarIds: seq<(string, string)> := [
    ("Microneedling", "CVV5l5hW8oQj9fCvJRQ0"),
    ("Hydrafacial", "I9kLB4y6IA6gjSRhoPkE"),
    ("IPL Acne Treatments", "LsUJFSftNp3F7WPgX4mZ"),
    ("Press Files", "Xo5vCcfx6bWIVykhPbsH"),
    ("Body Contouring", "atRqPW5SeTiOXwDx8VZx"),
    ("PRP Injections", "hm9zPDrD0kh86uVaZDwW"),
    ("Laser Hair Removal", "nddmesx61WaFpfrQR3ut"),
    ("Fillers", "xdyndm4rMsTvh48CLRjd"),
    ("Body Multi Shape", "fcs6WN0rroebbG97bitr"),
    ("Laser Treatments", "ztEI8IyOTmJL7uFzRgCu")
  ]

  /** The first entry of `table` named `name`, read as an own-property lookup. */
  function Find(table: seq<(string, string)>, name: string): Option<string> {
    if table == [] then None
    else if table[0].0 == name then Some(table[0].1)
    else Find(table[1..], name)
  }

  /** A lookup succeeds exactly for the names in the table, and what it finds
      is an entry for that name. */
  lemma {:induction false} FindSpec(table: seq<(string, string)>, name: string)
    ensures Find(table, name).Some? <==> exists i :: 0 <= i < |table| && table[i].0 == name
    ensures Find(table, name).Some? ==>
              exists i :: 0 <= i < |table| && table[i] == (name, Find(table, name).value)
  {
    if table != [] && table[0].0 != name {
      FindSpec(table[1..], name);
      assert forall i :: 0 < i < |table| ==> table[i] == table[1..][i - 1];
      if Find(table, name).Some? {
        var i :| 0 <= i < |table[1..]| && table[1..][i] == (name, Find(table, name).value);
        assert table[i + 1] == (name, Find(table, name).value);
      }
    }
  }

  /** `SERVICE_CAL_IDS[name]`, restricted to the object's own properties. */
  function LookupService(name: string): Option<string> {
    Find(ServiceCalendarIds, name)
  }

  /** A lookup finds a calendar exactly for the ten service names, spelled as
      listed, and the calendar it finds is one a reminder sweep reads. */
  lemma LookupServiceFinds(name: string)
    ensures LookupService(name).Some? <==>
              exists i :: 0 <= i < |ServiceCalendarIds| && ServiceCalendarIds[i].0 == name
    ensures LookupService(name).Some? ==> LookupService(name).value in CalendarIds()
  {
    FindSpec(ServiceCalendarIds, name);
    if LookupService(name).Some? {
      var i :| 0 <= i < |ServiceCalendarIds| && ServiceCalendarIds[i] == (name, LookupService(name).value);
      assert CalendarIds()[i] == LookupService(name).value;
    }
  }

  /** `Object.values(SERVICE_CAL_IDS)`: the calendars a reminder sweep reads. */
  function CalendarIds(): (ids: seq<string>)
    ensures |ids| == |ServiceCalendarIds|
    ensures forall i :: 0 <= i < |ids| ==> ids[i] == ServiceCalendarIds[i].1
  {
    seq(|ServiceCalendarIds|, i requires 0 <= i < |ServiceCalendarIds| => ServiceCalendarIds[i].1)
  }

  /** No two services share a name or a calendar, so a lookup is unambiguous
      and a sweep reads each calendar once. */
  lemma ServicesDistinct()
    ensures forall i, j :: 0 <= i < j < |ServiceCalendarIds| ==>
              ServiceCalendarIds[i].0 != ServiceCalendarIds[j].0
              && ServiceCalendarIds[i].1 != ServiceCalendarIds[j].1
  {
  }

  /** The names every plain object inherits from `Object.prototype` in Node.js. */
  const ObjectPrototypeMembers: seq<string> := [
    "constructor", "__defineGetter__", "__defineSetter__", "hasOwnProperty",
    "__lookupGetter__", "__lookupSetter__", "isPrototypeOf", "propertyIsEnumerable",
    "toString", "valueOf", "__proto__", "toLocaleString"
  ]

  /** What `SERVICE_CAL_IDS[name]` evaluates to. */
  datatype PropertyValue = OwnProperty(calendarId: string) | InheritedMember(name: string) | Undefined

  /** `SERVICE_CAL_IDS[name]` as the code evaluates it: a plain object literal
      also answers with every member it inherits, and each of those is a
      function or an object, so `!calendarId` is false for it. */
  function PropertyLookupAsWritten(name: string): (r: PropertyValue)
    ensures LookupService(name).Some? ==> r == OwnProperty(LookupService(name).value)
    ensures LookupService(name).None? ==> (r == InheritedMember(name) <==> name in ObjectPrototypeMembers)
    ensures r.Undefined? <==> LookupService(name).None? && name !in ObjectPrototypeMembers
  {
    var own := LookupService(name);
    if own.Some? then OwnProperty(own.value)
    else if name in ObjectPrototypeMembers then InheritedMember(name)
    else Undefined
  }

  /** The unknown-service check lets inherited names through: `"toString"` is
      no service, yet looking it up gives a truthy value. */
  lemma InheritedNamePassesLookup()
    ensures LookupService("toString").None?
    ensures PropertyLookupAsWritten("toString") == InheritedMember("toString")
  {
    var name := "toString";
    forall i | 0 <= i < |ServiceCalendarIds|
      ensures ServiceCalendarIds[i].0 != name
    {
      assert |ServiceCalendarIds[i].0| != |name|;
    }
    LookupServiceFinds(name);
    assert ObjectPrototypeMembers[8] == name;
  }
}
