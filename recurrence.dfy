/** The recurrence expander of the appointment service
    (generateRecurringAppointments and isValidAppointmentDate): from a seed
    request and its recurrence rule, the list of concrete appointment
    instances, at most 52, bounded by an optional end date, skipping past
    dates and, for a weekly rule with a weekday list, unlisted weekdays. */
module Recurrence {
  import opened Base
  import opened Calendar
  import opened Appointment

  /** `maxAppointments`: the cap on generated instances. */
  const MaxAppointments: nat := 52

  /** The end of the series: none, a day, or an end date that is an Invalid Date. */
  datatype EndBound = NoEnd | EndAt(day: int) | EndUnparsable

  /** `recurrence.endDate ? new Date(recurrence.endDate) : null`. */
  function EndOf(r: Recurrence): EndBound {
    match r.endDate
    case None => NoEnd
    case Some(s) =>
      if s == [] then NoEnd
      else
        match ParseIsoDate(s)
        case Some(e) => EndAt(e)
        case None => EndUnparsable
  }

  /** The loop condition `!endDate || currentDate <= endDate`; every
      comparison with an Invalid Date is false. */
  predicate WithinEnd(end: EndBound, cur: int) {
    match end
    case NoEnd => true
    case EndAt(e) => cur <= e
    case EndUnparsable => false
  }

  /** `recurrence.interval || 1`: a missing, zero or NaN interval means 1. */
  function IntervalOf(r: Recurrence): int {
    if r.interval.Some? && Truthy(r.interval.value) then r.interval.value.value else 1
  }

  /** Day z (its midnight) is before the instant `now`, in milliseconds. */
  predicate IsPast(z: int, now: int) {
    z * MsPerDay < now
  }

  /** The rule has a weekday list (`type === 'weekly' && daysOfWeek`); an
      empty list counts, since an empty array is truthy. */
  predicate HasWeekdayList(r: Recurrence) {
    r.kind == Weekly && r.daysOfWeek.Some?
  }

  /** isValidAppointmentDate. `date` is None for an Invalid Date, whose
      comparison with now is false. */
  function IsValidAppointmentDate(date: Option<int>, now: int, recurrence: Option<Recurrence>): (ok: bool)
    ensures ok && date.Some? ==> !IsPast(date.value, now)
    ensures ok && recurrence.Some? && HasWeekdayList(recurrence.value)
      ==> date.Some? && Weekday(date.value) in recurrence.value.daysOfWeek.value
    ensures date.Some? && !IsPast(date.value, now) && !(recurrence.Some? && HasWeekdayList(recurrence.value)) ==> ok
  {
    if date.Some? && IsPast(date.value, now) then false
    else if recurrence.Some? && HasWeekdayList(recurrence.value) then
      date.Some? && Weekday(date.value) in recurrence.value.daysOfWeek.value
    else true
  }

  /** A weekly rule with an empty weekday list rejects every date. */
  lemma EmptyWeekdayListRejectsEveryDate(date: Option<int>, now: int, r: Recurrence)
    requires r.kind == Weekly && r.daysOfWeek == Some([])
    ensures !IsValidAppointmentDate(date, now, Some(r))
  {
  }

  /** Today is never valid once its midnight has passed: the check compares
      the instant now with the start of the day. */
  lemma TodayRejectedAfterMidnight(z: int, now: int, r: Option<Recurrence>)
    requires z * MsPerDay < now < (z + 1) * MsPerDay
    ensures !IsValidAppointmentDate(Some(z), now, r)
  {
  }

  /** `daysOfWeek.filter(day => day > currentDay)`, in list order. */
  function LaterDays(days: seq<int>, c: int): seq<int> {
    if days == [] then []
    else (if days[0] > c then [days[0]] else []) + LaterDays(days[1..], c)
  }

  /** The later days are exactly the listed days after c. */
  lemma {:induction false} LaterDaysExactly(days: seq<int>, c: int)
    ensures forall i :: 0 <= i < |LaterDays(days, c)| ==> LaterDays(days, c)[i] > c && LaterDays(days, c)[i] in days
    ensures forall d :: d in days && d > c ==> d in LaterDays(days, c)
  {
    if days != [] {
      LaterDaysExactly(days[1..], c);
      assert days == [days[0]] + days[1..];
    }
  }

  /** The first later day is the first entry of the list that is later, not
      the smallest later day. */
  lemma {:induction false} LaterDaysFirst(days: seq<int>, c: int)
    requires |LaterDays(days, c)| > 0
    ensures exists i :: 0 <= i < |days| && days[i] == LaterDays(days, c)[0] && (forall j :: 0 <= j < i ==> days[j] <= c)
  {
    if days[0] <= c {
      LaterDaysFirst(days[1..], c);
      var i :| 0 <= i < |days[1..]| && days[1..][i] == LaterDays(days[1..], c)[0]
        && forall j :: 0 <= j < i ==> days[1..][j] <= c;
      assert days[i + 1] == LaterDays(days, c)[0];
      assert forall j :: 0 <= j < i + 1 ==> days[j] <= c by {
        forall j | 0 <= j < i + 1 ensures days[j] <= c {
          if j > 0 { assert days[j] == days[1..][j - 1]; }
        }
      }
    } else {
      assert days[0] == LaterDays(days, c)[0];
    }
  }

  /** The monthly step: `setMonth(getMonth() + interval)`, which rolls over
      when the day does not exist in the target month, then `setDate` to the
      seed's day of the month capped by the length of the month reached. */
  function MonthlyAdvance(cur: int, interval: int, dayOfMonth: int): int {
    var c := ToCivil(cur);
    var moved := ToCivil(MakeDay(c.year, c.month - 1 + interval, c.day));
    MakeDay(moved.year, moved.month - 1, Min(dayOfMonth, LastDayOfMonth(moved.year, moved.month - 1)))
  }

  function Min(a: int, b: int): int {
    if a <= b then a else b
  }

  /** The monthly step moves forward: to a later month, at least the next one. */
  lemma MonthlyAdvanceLater(cur: int, interval: int, dayOfMonth: int)
    requires interval >= 1 && dayOfMonth >= 1
    ensures MonthlyAdvance(cur, interval, dayOfMonth) > cur
  {
    hide MonthStart, MonthLength, MonthOf, ToCivil, LastDayOfMonth;
    var c := ToCivil(cur);
    var k := MonthOf(cur);
    CivilIndex(cur);
    var target := k + interval;
    var moved := MakeDay(c.year, c.month - 1 + interval, c.day);
    assert c.year * 12 + (c.month - 1 + interval) == target;
    assert moved >= MonthStart(target);
    var k2 := MonthOf(moved);
    if k2 < target {
      MonthStartOrder(k2, target);
    }
    MonthStartOrder(k, k2);
    var o := ToCivil(moved);
    CivilIndex(moved);
    var day := Min(dayOfMonth, LastDayOfMonth(o.year, o.month - 1));
    assert MonthlyAdvance(cur, interval, dayOfMonth) == MonthStart(k2) + day - 1;
  }

  /** What the expander needs of a rule: its resolved interval, end and the
      seed's day of the month. */
  datatype Plan = Plan(rec: Recurrence, step: int, end: EndBound, dayOfMonth: int)

  function PlanOf(rec: Recurrence, seed: int): Plan {
    Plan(rec, IntervalOf(rec), EndOf(rec), ToCivil(seed).day)
  }

  /** Weekday numbers as the form produces them: 0 (Sunday) to 6 (Saturday). */
  predicate WeekdayNumbers(days: seq<int>) {
    forall d :: d in days ==> 0 <= d <= 6
  }

  /** Rules for which the loop of the source terminates. */
  predicate PlanOk(p: Plan) {
    p.rec.kind != NoneType && p.step >= 1 && p.dayOfMonth >= 1
    && (HasWeekdayList(p.rec) ==>
          WeekdayNumbers(p.rec.daysOfWeek.value)
          && (p.end == NoEnd ==> |p.rec.daysOfWeek.value| > 0))
  }

  /** The date after `cur`, by the switch on the recurrence type. */
  function Advance(p: Plan, cur: int): int {
    match p.rec.kind
    case Daily => cur + p.step
    case Weekly =>
      if p.rec.daysOfWeek.Some? && |p.rec.daysOfWeek.value| > 0 then
        var days := p.rec.daysOfWeek.value;
        var c := Weekday(cur);
        var next := LaterDays(days, c);
        if |next| > 0 then cur + (next[0] - c) else cur + (7 * p.step - c + days[0])
      else cur + 7 * p.step
    case Monthly => MonthlyAdvance(cur, p.step, p.dayOfMonth)
    case NoneType => cur
  }

  /** Every step moves strictly forward. */
  lemma AdvanceLater(p: Plan, cur: int)
    requires PlanOk(p)
    ensures Advance(p, cur) > cur
  {
    if p.rec.kind == Monthly {
      MonthlyAdvanceLater(cur, p.step, p.dayOfMonth);
    } else if p.rec.kind == Weekly && p.rec.daysOfWeek.Some? && |p.rec.daysOfWeek.value| > 0 {
      assert p.rec.daysOfWeek.value[0] in p.rec.daysOfWeek.value;
      LaterDaysExactly(p.rec.daysOfWeek.value, Weekday(cur));
    }
  }

  /** A weekly step with a non-empty weekday list always lands on a listed weekday. */
  lemma AdvanceListed(p: Plan, cur: int)
    requires p.rec.kind == Weekly && p.rec.daysOfWeek.Some? && |p.rec.daysOfWeek.value| > 0
    requires WeekdayNumbers(p.rec.daysOfWeek.value)
    ensures Weekday(Advance(p, cur)) in p.rec.daysOfWeek.value
  {
    hide MonthlyAdvance;
    var days := p.rec.daysOfWeek.value;
    var c := Weekday(cur);
    var next := LaterDays(days, c);
    LaterDaysExactly(days, c);
    var d := if |next| > 0 then next[0] else days[0];
    var n := if |next| > 0 then d - c else 7 * p.step - c + d;
    assert d in days && 0 <= d <= 6;
    assert Advance(p, cur) == cur + n;
    hide Advance, LaterDays;
    WeekdayShift(cur, n);
    assert (c + n) % 7 == d;
  }

  /** The part of the measure that an end date or the distance to now bounds. */
  function Span(p: Plan, now: int, cur: int): nat {
    match p.end
    case EndAt(e) => if cur <= e then e - cur + 1 else 0
    case _ => if IsPast(cur, now) then now - cur * MsPerDay else 0
  }

  /** 1 while a weekday-list rule sits on an unlisted weekday. */
  function Unlisted(p: Plan, cur: int): nat {
    if HasWeekdayList(p.rec) && Weekday(cur) !in p.rec.daysOfWeek.value then 1 else 0
  }

  /** The days the loop emits, starting at `cur` with `count` already emitted. */
  function Dates(p: Plan, now: int, cur: int, count: nat): seq<int>
    requires PlanOk(p)
    decreases MaxAppointments - count, Span(p, now, cur), Unlisted(p, cur)
  {
    if !WithinEnd(p.end, cur) || count >= MaxAppointments then []
    else
      var next := Advance(p, cur);
      AdvanceLater(p, cur);
      if IsValidAppointmentDate(Some(cur), now, Some(p.rec)) then [cur] + Dates(p, now, next, count + 1)
      else
        assert p.end == NoEnd && !IsPast(cur, now) ==> Unlisted(p, next) == 0 by {
          if p.end == NoEnd && !IsPast(cur, now) { AdvanceListed(p, cur); }
        }
        Dates(p, now, next, count)
  }

  /** One iteration of the loop: stop, or emit `cur` or not and move on. */
  lemma DatesUnfold(p: Plan, now: int, cur: int, count: nat)
    requires PlanOk(p)
    ensures !WithinEnd(p.end, cur) || count >= MaxAppointments ==> Dates(p, now, cur, count) == []
    ensures WithinEnd(p.end, cur) && count < MaxAppointments ==>
      Dates(p, now, cur, count)
      == if IsValidAppointmentDate(Some(cur), now, Some(p.rec))
         then [cur] + Dates(p, now, Advance(p, cur), count + 1)
         else Dates(p, now, Advance(p, cur), count)
    ensures WithinEnd(p.end, cur) && count < MaxAppointments && !IsValidAppointmentDate(Some(cur), now, Some(p.rec)) ==>
      Span(p, now, Advance(p, cur)) < Span(p, now, cur)
      || (Span(p, now, Advance(p, cur)) == Span(p, now, cur) && Unlisted(p, Advance(p, cur)) < Unlisted(p, cur))
  {
    hide MonthlyAdvance;
    AdvanceLater(p, cur);
    if WithinEnd(p.end, cur) && count < MaxAppointments && !IsValidAppointmentDate(Some(cur), now, Some(p.rec)) {
      if p.end == NoEnd && !IsPast(cur, now) { AdvanceListed(p, cur); }
    }
  }

  /** The loop emits at most 52 days in all. */
  lemma {:induction false} DatesLength(p: Plan, now: int, cur: int, count: nat)
    requires PlanOk(p)
    ensures |Dates(p, now, cur, count)| <= if count >= MaxAppointments then 0 else MaxAppointments - count
    decreases MaxAppointments - count, Span(p, now, cur), Unlisted(p, cur)
  {
    hide *;
    DatesUnfold(p, now, cur, count);
    if WithinEnd(p.end, cur) && count < MaxAppointments {
      var next := Advance(p, cur);
      if IsValidAppointmentDate(Some(cur), now, Some(p.rec)) {
        DatesLength(p, now, next, count + 1);
      } else {
        DatesLength(p, now, next, count);
      }
    }
  }

  /** An emitted day is not in the past, is not after the end date, and for a
      weekday-list rule falls on a listed weekday. */
  predicate Admissible(p: Plan, now: int, d: int) {
    !IsPast(d, now)
    && (p.end.EndAt? ==> d <= p.end.day)
    && (HasWeekdayList(p.rec) ==> Weekday(d) in p.rec.daysOfWeek.value)
  }

  /** Every emitted day is admissible and no earlier than where the loop starts. */
  lemma {:induction false} DatesAdmissible(p: Plan, now: int, cur: int, count: nat)
    requires PlanOk(p)
    ensures forall i :: 0 <= i < |Dates(p, now, cur, count)| ==>
      Admissible(p, now, Dates(p, now, cur, count)[i]) && Dates(p, now, cur, count)[i] >= cur
    decreases MaxAppointments - count, Span(p, now, cur), Unlisted(p, cur)
  {
    hide *;
    DatesUnfold(p, now, cur, count);
    if WithinEnd(p.end, cur) && count < MaxAppointments {
      var next := Advance(p, cur);
      AdvanceLater(p, cur);
      if IsValidAppointmentDate(Some(cur), now, Some(p.rec)) {
        EmittedIsAdmissible(p, now, cur);
        DatesAdmissible(p, now, next, count + 1);
        var rest := Dates(p, now, next, count + 1);
        forall i | 0 <= i < |rest| + 1
          ensures Admissible(p, now, ([cur] + rest)[i]) && ([cur] + rest)[i] >= cur
        {
          if i > 0 {
            assert ([cur] + rest)[i] == rest[i - 1];
          }
        }
      } else {
        DatesAdmissible(p, now, next, count);
      }
    }
  }

  /** A day the date check accepts within the end date is admissible. */
  lemma EmittedIsAdmissible(p: Plan, now: int, cur: int)
    requires WithinEnd(p.end, cur) && IsValidAppointmentDate(Some(cur), now, Some(p.rec))
    ensures Admissible(p, now, cur)
  {
  }

  predicate StrictlyIncreasing(ds: seq<int>) {
    forall i, j :: 0 <= i < j < |ds| ==> ds[i] < ds[j]
  }

  /** The emitted days strictly increase, so no day appears twice. */
  lemma {:induction false} DatesIncreasing(p: Plan, now: int, cur: int, count: nat)
    requires PlanOk(p)
    ensures StrictlyIncreasing(Dates(p, now, cur, count))
    decreases MaxAppointments - count, Span(p, now, cur), Unlisted(p, cur)
  {
    DatesUnfold(p, now, cur, count);
    if WithinEnd(p.end, cur) && count < MaxAppointments {
      var next := Advance(p, cur);
      AdvanceLater(p, cur);
      hide *;
      if IsValidAppointmentDate(Some(cur), now, Some(p.rec)) {
        DatesIncreasing(p, now, next, count + 1);
        DatesAdmissible(p, now, next, count + 1);
        var rest := Dates(p, now, next, count + 1);
        assert StrictlyIncreasing([cur] + rest) by {
          forall i, j | 0 <= i < j < |rest| + 1
            ensures ([cur] + rest)[i] < ([cur] + rest)[j]
          {
            if i == 0 {
              assert rest[j - 1] >= next;
            } else {
              assert StrictlyIncreasing(rest);
              assert rest[i - 1] < rest[j - 1];
            }
          }
        }
      } else {
        DatesIncreasing(p, now, next, count);
      }
    }
  }

  /** A daily rule without an end date, from a day that is not past, emits
      the remaining instances exactly `interval` days apart. */
  lemma {:induction false} DailyClosedForm(p: Plan, now: int, cur: int, count: nat)
    requires PlanOk(p) && p.rec.kind == Daily && p.end == NoEnd && !IsPast(cur, now)
    requires count <= MaxAppointments
    ensures |Dates(p, now, cur, count)| == MaxAppointments - count
    ensures forall i :: 0 <= i < |Dates(p, now, cur, count)| ==> Dates(p, now, cur, count)[i] == cur + i * p.step
    decreases MaxAppointments - count
  {
    if count < MaxAppointments {
      var rest := Dates(p, now, cur + p.step, count + 1);
      DailyClosedForm(p, now, cur + p.step, count + 1);
      assert Dates(p, now, cur, count) == [cur] + rest;
      forall i | 0 < i < |rest| + 1
        ensures ([cur] + rest)[i] == cur + i * p.step
      {
        assert rest[i - 1] == cur + p.step + (i - 1) * p.step;
      }
    }
  }

  /** The result of the expander: the instances, or the RangeError that
      toISOString throws for an Invalid Date. */
  datatype Expansion = Expanded(appointments: seq<AppointmentData>) | InvalidTimeValue

  /** One generated instance: the seed with its date replaced and the
      recurrence object extended. */
  function Instance(data: AppointmentData, day: int, sequence: int): AppointmentData
    requires data.recurrence.Some?
  {
    data.(
      date := FormatIsoDate(day),
      recurrence := Some(data.recurrence.value.(
        instance := Some(InstanceInfo(true, data.date, sequence, MaxAppointments)))))
  }

  function Instances(data: AppointmentData, ds: seq<int>): (r: seq<AppointmentData>)
    requires data.recurrence.Some?
  {
    seq(|ds|, i requires 0 <= i < |ds| => Instance(data, ds[i], i + 1))
  }

  lemma InstancesNil(data: AppointmentData)
    requires data.recurrence.Some?
    ensures Instances(data, []) == []
  {
    hide FormatIsoDate;
  }

  /** Appending a day appends its instance, numbered one past the others. */
  lemma InstancesSnoc(data: AppointmentData, ds: seq<int>, d: int)
    requires data.recurrence.Some?
    ensures Instances(data, ds + [d]) == Instances(data, ds) + [Instance(data, d, |ds| + 1)]
  {
    hide FormatIsoDate;
    assert forall i :: 0 <= i < |ds| ==> (ds + [d])[i] == ds[i];
  }

  /** The inputs the model expands, on which the loop of the source surely
      terminates: a positive interval, weekday numbers 0-6, and, without an
      end date, a weekday list that can match (non-empty, from a seed date
      that parses). Some excluded inputs also end in the source. */
  predicate GenerationTerminates(data: AppointmentData) {
    IsRecurring(data) ==>
      var rec := data.recurrence.value;
      IntervalOf(rec) >= 1
      && (HasWeekdayList(rec) ==>
            WeekdayNumbers(rec.daysOfWeek.value)
            && (EndOf(rec) == NoEnd ==> |rec.daysOfWeek.value| > 0 && ParseIsoDate(data.date).Some?))
  }

  /** generateRecurringAppointments, as a function of the request and now. */
  function Expand(data: AppointmentData, now: int): Expansion
    requires GenerationTerminates(data)
  {
    if !IsRecurring(data) then Expanded([data.(recurrence := Some(NoRecurrence))])
    else
      var rec := data.recurrence.value;
      match ParseIsoDate(data.date)
      case None => if EndOf(rec) == NoEnd then InvalidTimeValue else Expanded([])
      case Some(seed) => Expanded(Instances(data, Dates(PlanOf(rec, seed), now, seed, 0)))
  }

  /** generateRecurringAppointments. */
  method GenerateRecurringAppointments(data: AppointmentData, now: int) returns (r: Expansion)
    requires GenerationTerminates(data)
    ensures r == Expand(data, now)
    ensures r.Expanded? ==> |r.appointments| <= MaxAppointments
  {
    if !IsRecurring(data) {
      return Expanded([data.(recurrence := Some(NoRecurrence))]);
    }
    var rec := data.recurrence.value;
    var startDate := ParseIsoDate(data.date);
    if startDate.None? {
      // Every comparison with the Invalid Date is false: with an end date the
      // loop never runs; without one the date is accepted and toISOString throws.
      if EndOf(rec) != NoEnd {
        return Expanded([]);
      }
      return InvalidTimeValue;
    }
    var appointments := EmitInstances(data, PlanOf(rec, startDate.value), startDate.value, now);
    DatesLength(PlanOf(rec, startDate.value), now, startDate.value, 0);
    return Expanded(appointments);
  }

  /** The while loop: from the seed day, emit an instance for each valid day
      and advance, until the end date or the cap. */
  method EmitInstances(data: AppointmentData, p: Plan, startDate: int, now: int)
    returns (appointments: seq<AppointmentData>)
    requires data.recurrence.Some? && p.rec == data.recurrence.value && PlanOk(p)
    ensures appointments == Instances(data, Dates(p, now, startDate, 0))
  {
    hide FormatIsoDate, MonthlyAdvance, ParseIsoDate, Dates, Advance;
    var current := startDate;
    var count: nat := 0;
    appointments := [];
    ghost var emitted: seq<int> := [];
    InstancesNil(data);
    while WithinEnd(p.end, current) && count < MaxAppointments
      invariant count == |emitted|
      invariant appointments == Instances(data, emitted)
      invariant emitted + Dates(p, now, current, count) == Dates(p, now, startDate, 0)
      decreases MaxAppointments - count, Span(p, now, current), Unlisted(p, current)
    {
      DatesUnfold(p, now, current, count);
      var next := Advance(p, current);
      if IsValidAppointmentDate(Some(current), now, Some(p.rec)) {
        InstancesSnoc(data, emitted, current);
        appointments := appointments + [Instance(data, current, count + 1)];
        emitted := emitted + [current];
        count := count + 1;
      }
      current := next;
    }
    DatesUnfold(p, now, current, count);
  }

  /** The generated series for a recurring request with a parsable seed date:
      at most 52 admissible days from the seed on, strictly increasing. */
  lemma ExpandSeries(data: AppointmentData, now: int)
    requires GenerationTerminates(data) && IsRecurring(data) && ParseIsoDate(data.date).Some?
    ensures var seed := ParseIsoDate(data.date).value;
      var p := PlanOf(data.recurrence.value, seed);
      var ds := Dates(p, now, seed, 0);
      Expand(data, now) == Expanded(Instances(data, ds))
      && |ds| <= MaxAppointments && StrictlyIncreasing(ds)
      && forall i :: 0 <= i < |ds| ==> Admissible(p, now, ds[i]) && ds[i] >= seed
  {
    var seed := ParseIsoDate(data.date).value;
    var p := PlanOf(data.recurrence.value, seed);
    DatesLength(p, now, seed, 0);
    DatesAdmissible(p, now, seed, 0);
    DatesIncreasing(p, now, seed, 0);
  }

  /** Instance i is the seed with date ds[i] and the recurrence object
      extended by isRecurringInstance, the seed's date as originalDate,
      sequence i + 1 and totalInstances 52; nothing else changes. */
  lemma InstanceFields(data: AppointmentData, ds: seq<int>)
    requires data.recurrence.Some?
    ensures |Instances(data, ds)| == |ds|
    ensures forall i :: 0 <= i < |ds| ==>
      var a := Instances(data, ds)[i];
      a.date == FormatIsoDate(ds[i])
      && a.doctorId == data.doctorId && a.patientId == data.patientId
      && a.startTime == data.startTime && a.endTime == data.endTime && a.notes == data.notes
      && a.recurrence.Some?
      && a.recurrence.value.(instance := None) == data.recurrence.value.(instance := None)
      && a.recurrence.value.instance == Some(InstanceInfo(true, data.date, i + 1, MaxAppointments))
  {
  }
}
