/** The booking form's 12-hour clock times: the pattern the booking route
    checks them against and the helper `to24h` that turns `"H:MM AM|PM"`
    into the zero-padded `"HH:MM"` of an ISO timestamp. */
module Time12 {

  predicate IsDigit(c: char) {
    '0' <= c <= '9'
  }

  predicate AllDigits(ds: string) {
    forall k :: 0 <= k < |ds| ==> IsDigit(ds[k])
  }

  function DigitValue(c: char): nat
    requires IsDigit(c)
  {
    c as int - '0' as int
  }

  function DigitChar(d: nat): char
    requires d < 10
  {
    (d + '0' as int) as char
  }

  /** `Number(ds)` for a string of decimal digits. */
  function Number(ds: string): nat
    requires AllDigits(ds)
  {
    if ds == [] then 0 else Number(ds[..|ds| - 1]) * 10 + DigitValue(ds[|ds| - 1])
  }

  /** `String(n)` for a non-negative integer. */
  function NatString(n: nat): string
  {
    if n < 10 then [DigitChar(n)] else NatString(n / 10) + [DigitChar(n % 10)]
  }

  /** `String(n).padStart(2, '0')`. */
  function Pad2(n: nat): string
  {
    var t := NatString(n);
    if |t| < 2 then "0" + t else t
  }

  /** `/^([1-9]|1[0-2]):[0-5][0-9] (AM|PM)$/.test(s)`: an hour 1-12 without a
      leading zero, two minute digits 00-59, one space and an upper-case
      meridiem. */
  predicate IsTime12(s: string) {
    (|s| == 7 && '1' <= s[0] <= '9' && MinuteAndMeridiem(s[1..]))
    || (|s| == 8 && s[0] == '1' && '0' <= s[1] <= '2' && MinuteAndMeridiem(s[2..]))
  }

  /** The `:[0-5][0-9] (AM|PM)` tail of the time pattern. */
  predicate MinuteAndMeridiem(t: string) {
    |t| == 6 && t[0] == ':' && '0' <= t[1] <= '5' && IsDigit(t[2]) && t[3] == ' '
    && (t[4..] == "AM" || t[4..] == "PM")
  }

  /** The hour alternative `[1-9]|1[0-2]` of the time pattern. */
  predicate IsHour12Text(h: string) {
    (|h| == 1 && '1' <= h[0] <= '9') || (|h| == 2 && h[0] == '1' && '0' <= h[1] <= '2')
  }

  /** The parts of the time pattern, put together. */
  predicate TimeParts(h: string, mm: string, mer: string) {
    IsHour12Text(h) && |mm| == 2 && '0' <= mm[0] <= '5' && IsDigit(mm[1]) && (mer == "AM" || mer == "PM")
  }

  lemma TimeOfParts(h: string, mm: string, mer: string)
    requires TimeParts(h, mm, mer)
    ensures IsTime12(h + ":" + mm + " " + mer)
  {
    var tail := ":" + mm + " " + mer;
    var s := h + tail;
    assert h + ":" + mm + " " + mer == s;
    assert s[|h|..] == tail;
    assert tail[4..] == mer;
    assert MinuteAndMeridiem(tail);
    if |h| == 1 {
      assert s[0] == h[0] && s[1..] == tail;
    } else {
      assert s[0] == h[0] && s[1] == h[1] && s[2..] == tail;
    }
  }

  /** The time check accepts exactly an hour 1-12 without a leading zero, a
      colon, two minute digits 00-59, one space and `AM` or `PM`. */
  lemma TimePattern(s: string)
    ensures IsTime12(s) <==> exists h, mm, mer :: TimeParts(h, mm, mer) && s == h + ":" + mm + " " + mer
  {
    if IsTime12(s) {
      var h, mm, mer := s[..|s| - 6], s[|s| - 5..|s| - 3], s[|s| - 2..];
      MeridiemParts(s);
      assert TimeParts(h, mm, mer);
    }
    if exists h, mm, mer :: TimeParts(h, mm, mer) && s == h + ":" + mm + " " + mer {
      var h, mm, mer :| TimeParts(h, mm, mer) && s == h + ":" + mm + " " + mer;
      TimeOfParts(h, mm, mer);
    }
  }

  /** A 24-hour `"HH:MM"` time, 00:00 to 23:59. */
  predicate IsTime24(r: string) {
    |r| == 5 && IsDigit(r[0]) && IsDigit(r[1]) && r[2] == ':' && '0' <= r[3] <= '5'
    && IsDigit(r[4]) && Number(r[..2]) < 24
  }

  /** The hour, minute digits and meridiem of an accepted 12-hour time, read
      off by position. */
  function HourText(s: string): string
    requires IsTime12(s)
  {
    s[..|s| - 6]
  }

  function MinuteText(s: string): string
    requires IsTime12(s)
  {
    s[|s| - 5..|s| - 3]
  }

  predicate IsPm(s: string)
    requires IsTime12(s)
  {
    s[|s| - 2..] == "PM"
  }

  /** `to24h(time12h)`. Splitting at the space and at the colon is done by
      position: the time pattern has already fixed where both are. */
  function To24h(time12h: string): string
    requires IsTime12(time12h)
  {
    var sp := |time12h| - 3;
    var t, mod := time12h[..sp], time12h[sp + 1..];
    var colon := |t| - 3;
    var h := Number(t[..colon]);
    var m := Number(t[colon + 1..]);
    var h := if mod == "PM" && h != 12 then h + 12 else h;
    var h := if mod == "AM" && h == 12 then 0 else h;
    Pad2(h) + ":" + Pad2(m)
  }

  /** The inverse conversion, the reading a clock face gives: hour 0 is 12 AM,
      hours 1-11 are AM, 12 is 12 PM and 13-23 are 1-11 PM. */
  function To12h(r: string): string
    requires IsTime24(r)
  {
    var h := Number(r[..2]);
    NatString(Hour12(h)) + r[2..] + " " + (if h < 12 then "AM" else "PM")
  }

  lemma DigitRoundTrip(c: char, d: nat)
    requires d < 10 && IsDigit(c)
    ensures IsDigit(DigitChar(d)) && DigitValue(DigitChar(d)) == d
    ensures DigitChar(DigitValue(c)) == c
  {
  }

  lemma Number2(ds: string)
    requires |ds| == 2 && AllDigits(ds)
    ensures Number(ds) == DigitValue(ds[0]) * 10 + DigitValue(ds[1])
  {
    var d0 := ds[..1];
    assert d0[..0] == [] && d0[0] == ds[0];
    assert Number(d0) == DigitValue(ds[0]);
    assert ds[..|ds| - 1] == d0;
  }

  lemma Number1(ds: string)
    requires |ds| == 1 && AllDigits(ds)
    ensures Number(ds) == DigitValue(ds[0])
  {
    assert ds[..0] == [];
  }

  /** `String(n).padStart(2, '0')` below 100 is the two decimal digits of n. */
  lemma Pad2Digits(n: nat)
    requires n < 100
    ensures Pad2(n) == [DigitChar(n / 10), DigitChar(n % 10)]
    ensures AllDigits(Pad2(n)) && Number(Pad2(n)) == n
  {
    if n >= 10 {
      assert NatString(n / 10) == [DigitChar(n / 10)];
    }
    var p := Pad2(n);
    DigitRoundTrip('0', n / 10);
    DigitRoundTrip('0', n % 10);
    Number2(p);
  }

  /** Padding the value of two digits gives the digits back. */
  lemma Pad2OfNumber(ds: string)
    requires |ds| == 2 && AllDigits(ds)
    ensures Number(ds) < 100 && Pad2(Number(ds)) == ds
  {
    Number2(ds);
    var n := Number(ds);
    Pad2Digits(n);
    DigitRoundTrip(ds[0], 0);
    DigitRoundTrip(ds[1], 0);
    assert n / 10 == DigitValue(ds[0]) && n % 10 == DigitValue(ds[1]);
  }

  /** The hour of an accepted time has no leading zero, so it is `String` of
      its own value. */
  lemma HourTextCanonical(s: string)
    requires IsTime12(s)
    ensures AllDigits(HourText(s))
    ensures 1 <= Number(HourText(s)) <= 12
    ensures NatString(Number(HourText(s))) == HourText(s)
  {
    var ht := HourText(s);
    if |s| == 7 {
      Number1(ht);
      DigitRoundTrip(ht[0], 0);
    } else {
      Number2(ht);
      DigitRoundTrip(ht[1], 0);
      DigitRoundTrip('0', 1);
      var n := Number(ht);
      assert n / 10 == 1 && n % 10 == DigitValue(ht[1]);
      assert NatString(n) == NatString(1) + [DigitChar(n % 10)];
    }
  }

  /** `to24h` splits an accepted time into exactly these parts. */
  lemma To24hParts(s: string)
    requires IsTime12(s)
    ensures AllDigits(HourText(s)) && AllDigits(MinuteText(s))
    ensures To24h(s) == Pad2(Hour24(Number(HourText(s)), IsPm(s))) + ":" + Pad2(Number(MinuteText(s)))
  {
    var sp := |s| - 3;
    var t := s[..sp];
    assert t[..|t| - 3] == HourText(s);
    assert t[|t| - 2..] == MinuteText(s);
    assert s[sp + 1..] == "AM" || s[sp + 1..] == "PM";
    HourTextCanonical(s);
  }

  /** The conversion table of index.js:46-47 as a function of the hour and
      meridiem. */
  function Hour24(h: nat, pm: bool): nat {
    if h == 12 then (if pm then 12 else 0) else (if pm then h + 12 else h)
  }

  /** Every accepted time becomes a 24-hour `"HH:MM"` whose hour is
      00-23, whose minute digits are the input's, and whose hour follows the
      rules: 12 AM is 00, 12 PM is 12, another PM hour h is h + 12 and another
      AM hour is unchanged. */
  lemma To24hFormat(s: string)
    requires IsTime12(s)
    ensures IsTime24(To24h(s))
    ensures To24h(s)[3..] == MinuteText(s)
    ensures var h := Number(HourText(s));
              Number(To24h(s)[..2]) ==
                if h == 12 then (if IsPm(s) then 12 else 0)
                else (if IsPm(s) then h + 12 else h)
  {
    To24hHalves(s);
    var h24 := Hour24(Number(HourText(s)), IsPm(s));
    Pad2Digits(h24);
    var r := To24h(s);
    assert r[2..] == ":" + MinuteText(s);
    assert r[3..] == MinuteText(s);
    assert r[3] == MinuteText(s)[0] == s[|s| - 5];
  }

  /** An accepted time ends in its meridiem, and the 24-hour hour is before
      noon exactly for AM. */
  lemma MeridiemParts(s: string)
    requires IsTime12(s)
    ensures s[|s| - 2..] == (if IsPm(s) then "PM" else "AM")
    ensures s == HourText(s) + ":" + MinuteText(s) + " " + s[|s| - 2..]
  {
  }

  /** On a 12-hour hour the two hour tables are inverse, and the 24-hour
      hour is before noon exactly for AM. */
  lemma HourTablesInverse(h: nat, pm: bool)
    requires 1 <= h <= 12
    ensures Hour12(Hour24(h, pm)) == h
    ensures Hour24(h, pm) < 12 <==> !pm
  {
  }

  /** The two halves of `to24h`'s result: the padded 24-hour hour and the
      colon with the minute digits copied. */
  lemma To24hHalves(s: string)
    requires IsTime12(s)
    ensures AllDigits(HourText(s)) && 1 <= Number(HourText(s)) <= 12
    ensures var r := To24h(s);
            |r| == 5 && r[..2] == Pad2(Hour24(Number(HourText(s)), IsPm(s)))
            && r[2..] == ":" + MinuteText(s)
  {
    To24hParts(s);
    HourTextCanonical(s);
    Pad2Digits(Hour24(Number(HourText(s)), IsPm(s)));
    Pad2OfNumber(MinuteText(s));
  }

  /** `To12h` of a 24-hour time whose parts are known. */
  lemma To12hOf(r: string, hour: nat, minutes: string, s: string)
    requires IsTime12(s) && |r| == 5 && r[2..] == ":" + minutes && minutes == MinuteText(s)
    requires AllDigits(r[..2]) && Number(r[..2]) == Hour24(hour, IsPm(s)) && 1 <= hour <= 12
    requires NatString(hour) == HourText(s)
    ensures IsTime24(r) && To12h(r) == s
  {
    HourTablesInverse(hour, IsPm(s));
    MeridiemParts(s);
    assert r[3] == minutes[0] && r[4] == minutes[1];
  }

  /** Converting back gives the input: `to24h` loses nothing. */
  lemma {:induction false} To24hRoundTrip(s: string)
    requires IsTime12(s)
    ensures IsTime24(To24h(s)) && To12h(To24h(s)) == s
  {
    To24hHalves(s);
    HourTextCanonical(s);
    var h := Number(HourText(s));
    var r := To24h(s);
    Pad2Digits(Hour24(h, IsPm(s)));
    To12hOf(r, h, MinuteText(s), s);
  }

  /** Distinct accepted 12-hour times have distinct 24-hour forms. */
  lemma To24hInjective(s: string, t: string)
    requires IsTime12(s) && IsTime12(t)
    requires To24h(s) == To24h(t)
    ensures s == t
  {
    To24hRoundTrip(s);
    To24hRoundTrip(t);
  }

  /** The hour a 24-hour time shows on a 12-hour clock. */
  function Hour12(h: nat): nat {
    if h == 0 then 12 else if h <= 12 then h else h - 12
  }

  lemma To12hParts(r: string)
    requires IsTime24(r)
    ensures IsTime12(To12h(r))
    ensures AllDigits(HourText(To12h(r))) && Number(HourText(To12h(r))) == Hour12(Number(r[..2]))
    ensures MinuteText(To12h(r)) == r[3..]
    ensures IsPm(To12h(r)) <==> Number(r[..2]) >= 12
  {
    var h := Number(r[..2]);
    var h12 := Hour12(h);
    var mer := if h < 12 then "AM" else "PM";
    var s := To12h(r);
    DigitRoundTrip('0', h12 % 10);
    DigitRoundTrip('0', 1);
    if h12 < 10 {
      assert NatString(h12) == [DigitChar(h12)];
    } else {
      assert NatString(h12) == NatString(1) + [DigitChar(h12 % 10)];
    }
    var ht := NatString(h12);
    assert s == ht + r[2..] + " " + mer;
    assert s[|ht|..] == r[2..] + " " + mer;
    assert HourText(s) == ht;
    if h12 < 10 { Number1(ht); } else { Number2(ht); }
  }

  /** Every 24-hour time is the conversion of exactly one accepted 12-hour
      time, so `to24h` is onto 00:00-23:59. */
  lemma {:induction false} To12hRoundTrip(r: string)
    requires IsTime24(r)
    ensures IsTime12(To12h(r)) && To24h(To12h(r)) == r
  {
    var s := To12h(r);
    To12hParts(r);
    To24hParts(s);
    Pad2OfNumber(r[..2]);
    Pad2OfNumber(r[3..]);
    assert Hour24(Hour12(Number(r[..2])), IsPm(s)) == Number(r[..2]);
    assert r == r[..2] + ":" + r[3..];
  }
}
