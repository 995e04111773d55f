/** The new-appointment form: the payload its submit handler builds (with
    the end time computed on a local Date), and its two recurrence handlers,
    which change the recurrence type and toggle a weekday. */
module AppointmentForm {
  import opened Base
  import opened TimeFormat
  import opened Calendar
  import opened Appointment
  import opened Recurrence
  import opened AppointmentService

  /** The recurrence part of the form state; the interval is what parseInt
      made of its input. */
  datatype FormRecurrence = FormRecurrence(kind: RecurrenceType, interval: JsNumber, endDate: string, daysOfWeek: seq<int>)

  /** The form state: every input as the string the browser reports. */
  datatype FormData = FormData(
    patientId: string,
    doctorId: string,
    date: string,
    time: string,
    duration: string,
    notes: string,
    room: string,
    recurrence: FormRecurrence)

  // ----- parseInt -----

  /** The longest prefix of decimal digits. */
  function LeadingDigits(s: string): (r: string)
    ensures |r| <= |s| && r == s[..|r|] && AllDigits(r)
    ensures |r| < |s| ==> !IsDigit(s[|r|])
  {
    if s != [] && IsDigit(s[0]) then [s[0]] + LeadingDigits(s[1..]) else []
  }

  /** parseInt(s) with the default radix: leading whitespace, an optional
      sign, then the longest run of decimal digits; NaN when there is none. */
  function ParseInt(s: string): JsNumber {
    var t := TrimStart(s);
    var negative := t != [] && t[0] == '-';
    var u := if t != [] && (t[0] == '-' || t[0] == '+') then t[1..] else t;
    var d := LeadingDigits(u);
    var v: int := if d == [] then 0 else DigitsValue(d);
    if d == [] then NaN else Num(if negative then -v else v)
  }

  /** The digit run of digits followed by a non-digit is those digits. */
  lemma {:induction false} LeadingDigitsOf(d: string, rest: string)
    requires AllDigits(d) && (rest == [] || !IsDigit(rest[0]))
    ensures LeadingDigits(d + rest) == d
  {
    if d != [] {
      assert (d + rest)[1..] == d[1..] + rest;
      LeadingDigitsOf(d[1..], rest);
    } else {
      assert d + rest == rest;
    }
  }

  /** parseInt reads a run of digits and stops at the first non-digit. */
  lemma ParseIntDigits(d: string, rest: string)
    requires AllDigits(d) && d != [] && (rest == [] || !IsDigit(rest[0]))
    ensures ParseInt(d + rest) == Num(DigitsValue(d))
  {
    hide DigitsValue, LeadingDigits;
    assert (d + rest)[0] == d[0];
    assert TrimStart(d + rest) == d + rest;
    LeadingDigitsOf(d, rest);
  }

  /** parseInt reads back the decimal rendering of any integer. */
  lemma ParseIntToString(n: int)
    ensures ParseInt(IntToString(n)) == Num(n)
  {
    hide NatToString, DigitsValue, LeadingDigits;
    if n < 0 {
      var s := NatToString(-n);
      var t := "-" + s;
      assert TrimStart(t) == t;
      assert t[1..] == s;
      LeadingDigitsOf(s, []);
      assert s + [] == s;
      NatToStringValue(-n);
    } else {
      ParseIntDigits(NatToString(n), []);
      assert NatToString(n) + [] == NatToString(n);
      NatToStringValue(n);
    }
  }

  /** parseInt finds no number in a string that starts with a letter. */
  lemma ParseIntLetter(s: string)
    requires s != [] && ('a' <= s[0] <= 'z' || 'A' <= s[0] <= 'Z')
    ensures ParseInt(s) == NaN
  {
    assert TrimStart(s) == s;
  }

  // ----- the end time -----

  /** The local Date the end time is computed on, as minutes after the local
      midnight of the day it was created, or the Invalid Date (NaN).
      setHours keeps the day and the minutes; setMinutes keeps the hour
      start. Seconds and milliseconds never reach getHours or getMinutes. */
  function SetHours(d: JsNumber, h: JsNumber): JsNumber {
    if d.NaN? || h.NaN? then NaN else Num((d.value / 1440) * 1440 + h.value * 60 + d.value % 60)
  }

  function SetMinutes(d: JsNumber, m: JsNumber): JsNumber {
    if d.NaN? || m.NaN? then NaN else Num((d.value / 60) * 60 + m.value)
  }

  /** Number addition, NaN absorbing. */
  function Plus(a: JsNumber, b: JsNumber): JsNumber {
    if a.NaN? || b.NaN? then NaN else Num(a.value + b.value)
  }

  /** `${getHours() padded}:${getMinutes() padded}:00`; NaN renders as "NaN". */
  function ClockText(d: JsNumber): string {
    if d.NaN? then "NaN:NaN:00" else PadStart2((d.value / 60) % 24) + ":" + PadStart2(d.value % 60) + ":00"
  }

  /** The end time: start plus duration modulo a day, as "HH:MM:00". */
  function EndTimeOf(hours: JsNumber, minutes: JsNumber, duration: JsNumber): string {
    if hours.NaN? || minutes.NaN? || duration.NaN? then "NaN:NaN:00"
    else
      var t := (hours.value * 60 + minutes.value + duration.value) % 1440;
      PadStart2(t / 60) + ":" + PadStart2(t % 60) + ":00"
  }

  /** Whatever the day and minute the Date started at, setting the hours and
      then the minutes leaves the clock at start plus duration modulo a day. */
  lemma ClockArithmetic(now: int, h: int, m: int)
    ensures var a := (now / 1440) * 1440 + h * 60 + now % 60;
      var b := (a / 60) * 60 + m;
      var t := (h * 60 + m) % 1440;
      (b / 60) % 24 == t / 60 && b % 60 == t % 60
  {
    var day := now / 1440;
    var r := now % 60;
    var a := day * 1440 + h * 60 + r;
    assert a / 60 == day * 24 + h by {
      assert a == (day * 24 + h) * 60 + r;
    }
    var b := (day * 24 + h) * 60 + m;
    var T := h * 60 + m;
    assert b == day * 1440 + T;
    var q := T / 1440;
    var t := T % 1440;
    assert b == (day + q) * 1440 + t;
    assert b / 60 == (day + q) * 24 + t / 60 by {
      assert b == ((day + q) * 24 + t / 60) * 60 + t % 60;
    }
    assert b % 60 == t % 60 by {
      assert b == ((day + q) * 24 + t / 60) * 60 + t % 60;
    }
  }

  /** The end-time computation of the submit handler: a Date created at
      `now` (minutes after a local midnight), its hours set to the form's
      hour and its minutes to the form's minute plus the duration. */
  method EndTime(hours: string, minutes: JsNumber, duration: string, now: int) returns (endTime: string)
    ensures endTime == EndTimeOf(ParseInt(hours), minutes, ParseInt(duration))
  {
    hide ParseInt, PadStart2;
    var endDate := Num(now);
    endDate := SetHours(endDate, ParseInt(hours));
    endDate := SetMinutes(endDate, Plus(minutes, ParseInt(duration)));
    if endDate.Num? {
      ClockArithmetic(now, ParseInt(hours).value, minutes.value + ParseInt(duration).value);
      assert ParseInt(hours).value * 60 + (minutes.value + ParseInt(duration).value)
          == ParseInt(hours).value * 60 + minutes.value + ParseInt(duration).value;
    }
    endTime := ClockText(endDate);
  }

  // ----- the payload -----

  /** The recurrence object of the payload: `{type: 'none'}`, or the type,
      interval and end date, with the weekday list for a weekly rule only. */
  function PayloadRecurrence(r: FormRecurrence): Appointment.Recurrence {
    if r.kind == NoneType then NoRecurrence
    else Recurrence(r.kind, Some(r.interval), Some(r.endDate), if r.kind == Weekly then Some(r.daysOfWeek) else None, None)
  }

  /** The minutes field of the form time, or NaN when it has no colon
      (parseInt of undefined). */
  function MinutesOf(time: string): JsNumber {
    var parts := Split(time, ':');
    if |parts| >= 2 then ParseInt(parts[1]) else NaN
  }

  /** The payload handleSubmit builds from the form state. */
  function Payload(form: FormData): AppointmentData {
    AppointmentData(
      ParseInt(form.doctorId),
      ParseInt(form.patientId),
      form.date,
      form.time + ":00",
      EndTimeOf(ParseInt(Split(form.time, ':')[0]), MinutesOf(form.time), ParseInt(form.duration)),
      if form.notes == "" then None else Some(form.notes),
      Some(PayloadRecurrence(form.recurrence)))
  }

  /** handleSubmit: the payload handed to onSubmit. */
  method HandleSubmit(form: FormData, now: int) returns (appointment: AppointmentData)
    ensures appointment == Payload(form)
  {
    var parts := Split(form.time, ':');
    var minutes := if |parts| >= 2 then ParseInt(parts[1]) else NaN;
    var startTime := form.time + ":00";
    var endTime := EndTime(parts[0], minutes, form.duration, now);
    var notes := if form.notes == "" then None else Some(form.notes);
    appointment := AppointmentData(ParseInt(form.doctorId), ParseInt(form.patientId), form.date,
                                   startTime, endTime, notes, Some(PayloadRecurrence(form.recurrence)));
  }

  /** The payload is recurring exactly when the form's type is not 'none';
      it then carries the form's type, interval and end date, and a weekday
      list exactly when the type is weekly. */
  lemma PayloadRecurrenceShape(form: FormData)
    ensures var p := Payload(form);
      p.recurrence.Some?
      && (IsRecurring(p) <==> form.recurrence.kind != NoneType)
      && (!IsRecurring(p) ==> p.recurrence.value == NoRecurrence)
      && (IsRecurring(p) ==>
            var r := p.recurrence.value;
            r.kind == form.recurrence.kind && r.interval == Some(form.recurrence.interval)
            && r.endDate == Some(form.recurrence.endDate) && r.instance.None?
            && (r.daysOfWeek.Some? <==> r.kind == Weekly)
            && (r.daysOfWeek.Some? ==> r.daysOfWeek.value == form.recurrence.daysOfWeek))
  {
  }

  /** The digits of a canonical time as the submit handler splits them. */
  lemma CanonicalFields(time: string)
    requires IsCanonical(time)
    ensures Split(time, ':') == [time[..2], time[3..]]
    ensures ParseInt(time[..2]) == Num(DigitsValue(time[..2]))
    ensures ParseInt(time[3..]) == Num(DigitsValue(time[3..]))
  {
    CanonicalChars(time);
    SplitOneColon(time, 2);
    assert time[..2] + [] == time[..2] && time[3..] + [] == time[3..];
    ParseIntDigits(time[..2], []);
    ParseIntDigits(time[3..], []);
  }

  /** The time `t` minutes after midnight (t < 1440) as "HH:MM". */
  function ClockOf(t: nat): string
    requires t < 1440
  {
    PadStart2(t / 60) + ":" + PadStart2(t % 60)
  }

  /** ClockOf renders a canonical time that denotes t. */
  lemma ClockOfCanonical(t: nat)
    requires t < 1440
    ensures IsCanonical(ClockOf(t)) && ClockMinutes(ClockOf(t)) == t
  {
    var a := PadStart2(t / 60);
    var b := PadStart2(t % 60);
    var s := a + ":" + b;
    assert s[..2] == a && s[3..] == b;
    PadStart2Value(t / 60);
    PadStart2Value(t % 60);
  }

  /** For a canonical form time and a numeric duration, the service
      normalises the payload's start back to the form time and its end to
      start plus duration modulo a day. */
  lemma PayloadTimes(form: FormData, d: int, parseDateTime: string -> Option<WallClock>)
    requires IsCanonical(form.time) && ParseInt(form.duration) == Num(d)
    ensures var p := Payload(form);
      var t := (ClockMinutes(form.time) + d) % 1440;
      Normalize(p.startTime, parseDateTime) == Canonical(form.time)
      && Normalize(p.endTime, parseDateTime) == Canonical(ClockOf(t))
      && ClockMinutes(ClockOf(t)) == t
  {
    hide Normalize, ParseInt, PadStart2, DigitsValue, Split;
    NormalizeDropsSeconds(form.time, parseDateTime);
    CanonicalFields(form.time);
    var t := (ClockMinutes(form.time) + d) % 1440;
    var h := DigitsValue(form.time[..2]);
    var m := DigitsValue(form.time[3..]);
    assert h * 60 + m + d == ClockMinutes(form.time) + d;
    assert Payload(form).endTime == ClockOf(t) + ":00";
    ClockOfCanonical(t);
    NormalizeDropsSeconds(ClockOf(t), parseDateTime);
  }

  /** A form submission with a canonical time, a numeric duration, both
      identifiers and a parsable date passes the service's local checks
      exactly when start plus duration, taken modulo a day, lies after the
      start; otherwise, as for every appointment running past midnight, it
      is rejected with the range error. */
  lemma SubmittedRangeCheck(form: FormData, d: int, parseDateTime: string -> Option<WallClock>)
    requires IsCanonical(form.time) && ParseInt(form.duration) == Num(d)
    requires Truthy(ParseInt(form.doctorId)) && Truthy(ParseInt(form.patientId))
    requires ParseIsoDate(form.date).Some?
    ensures var s := ClockMinutes(form.time);
      CheckLocally(Payload(form), parseDateTime)
        == if (s + d) % 1440 > s then Passed(Payload(form).(startTime := form.time, endTime := ClockOf((s + d) % 1440)))
           else Failed(RangeErrors)
  {
    hide Normalize, ParseIsoDate, ClockMinutes, ClockOf;
    PayloadTimes(form, d, parseDateTime);
    var p := Payload(form);
    assert p.startTime != "" && p.endTime != "" && p.date != "";
    AllPresentNoErrors(p);
  }

  // ----- the recurrence handlers -----

  /** handleRecurrenceTypeChange: the new type, and an empty weekday list
      when it is weekly. */
  function RecurrenceTypeChange(form: FormData, kind: RecurrenceType): FormData {
    form.(recurrence := form.recurrence.(kind := kind, daysOfWeek := if kind == Weekly then [] else form.recurrence.daysOfWeek))
  }

  /** Choosing weekly and submitting without picking a day sends an empty
      weekday list, which the series expander's date check rejects for
      every date. */
  lemma WeeklyWithoutDaysMatchesNothing(form: FormData, date: Option<int>, now: int)
    ensures var p := Payload(RecurrenceTypeChange(form, Weekly));
      p.recurrence.value.daysOfWeek == Some([])
      && !IsValidAppointmentDate(date, now, p.recurrence)
  {
    var p := Payload(RecurrenceTypeChange(form, Weekly));
    EmptyWeekdayListRejectsEveryDate(date, now, p.recurrence.value);
  }

  /** Changing the type keeps the rest of the form, resets the weekday list
      only for weekly, and is idempotent. */
  lemma RecurrenceTypeChangeEffect(form: FormData, kind: RecurrenceType)
    ensures var f := RecurrenceTypeChange(form, kind);
      f.recurrence.kind == kind
      && f.(recurrence := form.recurrence) == form
      && f.recurrence.interval == form.recurrence.interval && f.recurrence.endDate == form.recurrence.endDate
      && (kind == Weekly ==> f.recurrence.daysOfWeek == [])
      && (kind != Weekly ==> f.recurrence.daysOfWeek == form.recurrence.daysOfWeek)
      && RecurrenceTypeChange(f, kind) == f
  {
  }

  /** `days.filter(d => d !== day)`. */
  function RemoveAll(days: seq<int>, day: int): seq<int> {
    if days == [] then []
    else (if days[0] == day then [] else [days[0]]) + RemoveAll(days[1..], day)
  }

  /** The filter removes every copy of the day, keeps every other entry,
      and changes nothing when the day is absent. */
  lemma {:induction false} RemoveAllSpec(days: seq<int>, day: int)
    ensures var r := RemoveAll(days, day);
      day !in r
      && (forall x :: x != day ==> (x in r <==> x in days))
      && (forall x :: x != day ==> multiset(r)[x] == multiset(days)[x])
      && (day !in days ==> r == days)
      && |r| == |days| - multiset(days)[day]
  {
    if days != [] {
      RemoveAllSpec(days[1..], day);
      assert days == [days[0]] + days[1..];
      assert multiset(days) == multiset([days[0]]) + multiset(days[1..]);
    }
  }

  /** The filter distributes over concatenation. */
  lemma {:induction false} RemoveAllAppend(a: seq<int>, b: seq<int>, day: int)
    ensures RemoveAll(a + b, day) == RemoveAll(a, day) + RemoveAll(b, day)
  {
    if a != [] {
      assert (a + b)[1..] == a[1..] + b;
      RemoveAllAppend(a[1..], b, day);
    } else {
      assert a + b == b;
    }
  }

  /** The weekday toggle on a list: remove every copy of a listed day,
      append an unlisted one. */
  function ToggleDay(days: seq<int>, day: int): seq<int> {
    if day in days then RemoveAll(days, day) else days + [day]
  }

  /** After a toggle the day is listed exactly when it was not; the other
      days, with their order and multiplicity, are unchanged. */
  lemma ToggleDayEffect(days: seq<int>, day: int)
    ensures var r := ToggleDay(days, day);
      (day in r <==> day !in days)
      && RemoveAll(r, day) == RemoveAll(days, day)
      && (day !in days ==> r == days + [day])
  {
    RemoveAllSpec(days, day);
    if day in days {
      RemoveAllSpec(RemoveAll(days, day), day);
    } else {
      RemoveAllAppend(days, [day], day);
      assert RemoveAll([day], day) == [] by { assert [day][1..] == []; }
      assert days + [] == days;
    }
  }

  /** Toggling an unlisted day twice restores the list; toggling a listed
      day twice leaves one copy of it, at the end. */
  lemma ToggleDayTwice(days: seq<int>, day: int)
    ensures day !in days ==> ToggleDay(ToggleDay(days, day), day) == days
    ensures day in days ==> ToggleDay(ToggleDay(days, day), day) == RemoveAll(days, day) + [day]
  {
    RemoveAllSpec(days, day);
    if day !in days {
      RemoveAllSpec(days + [day], day);
      RemoveAllAppend(days, [day], day);
      assert RemoveAll([day], day) == [] by { assert [day][1..] == []; }
      assert days + [] == days;
    }
  }

  /** handleDayOfWeekToggle: the form with the day toggled in its weekday list. */
  function DayOfWeekToggle(form: FormData, day: int): FormData {
    form.(recurrence := form.recurrence.(daysOfWeek := ToggleDay(form.recurrence.daysOfWeek, day)))
  }

  /** The weekday toggle touches nothing but the weekday list. */
  lemma DayOfWeekToggleFrame(form: FormData, day: int)
    ensures var f := DayOfWeekToggle(form, day);
      f.recurrence.(daysOfWeek := form.recurrence.daysOfWeek) == form.recurrence
      && f.(recurrence := form.recurrence) == form
      && (day in f.recurrence.daysOfWeek <==> day !in form.recurrence.daysOfWeek)
  {
    ToggleDayEffect(form.recurrence.daysOfWeek, day);
  }
}
