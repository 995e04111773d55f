/** Worked examples of the recurrence expander on concrete dates of 2024. */
module RecurrenceExamples {
  import opened Base
  import opened Calendar
  import opened Appointment
  import opened Recurrence

  /** 1 January 2024 is day 19723. */
  lemma January2024Start()
    ensures MonthStart(2024 * 12) == 19723
  {
    assert LeapYearsBefore(2024) == 490 && LeapYearsBefore(1970) == 477;
    assert YearStart(2024) == 19723;
  }

  /** February, March, April and May 2024 start 31, 60, 91 and 121 days later. */
  lemma MonthStarts2024()
    ensures MonthStart(2024 * 12) == 19723 && MonthStart(2024 * 12 + 1) == 19754
    ensures MonthStart(2024 * 12 + 2) == 19783 && MonthStart(2024 * 12 + 3) == 19814
    ensures MonthStart(2024 * 12 + 4) == 19844
  {
    hide MonthStart;
    January2024Start();
    MonthStartStep(2024 * 12);
    MonthStartStep(2024 * 12 + 1);
    MonthStartStep(2024 * 12 + 2);
    MonthStartStep(2024 * 12 + 3);
    assert (2024 * 12 + 1) / 12 == 2024 && (2024 * 12 + 1) % 12 == 1;
    assert (2024 * 12 + 2) / 12 == 2024 && (2024 * 12 + 2) % 12 == 2;
    assert (2024 * 12 + 3) / 12 == 2024 && (2024 * 12 + 3) % 12 == 3;
    assert IsLeapYear(2024);
  }

  lemma Year2024Digits()
    ensures AllDigits("2024") && DigitsValue("2024") == 2024
  {
    assert "2024"[..3] == "202" && "202"[..2] == "20" && "20"[..1] == "2" && "2"[..0] == "";
  }

  lemma TwoDigits(s: string)
    requires |s| == 2 && AllDigits(s)
    ensures DigitsValue(s) == 10 * DigitValue(s[0]) + DigitValue(s[1])
  {
    DigitsValueShort(s);
  }

  lemma ParseJan15()
    ensures ParseIsoDate("2024-01-15") == Some(19737)
  {
    hide MonthStart;
    var s := "2024-01-15";
    assert s[..4] == "2024" && s[5..7] == "01" && s[8..] == "15";
    Year2024Digits();
    TwoDigits("01");
    TwoDigits("15");
    January2024Start();
  }

  lemma ParseFeb15()
    ensures ParseIsoDate("2024-02-15") == Some(19768)
  {
    hide MonthStart;
    var s := "2024-02-15";
    assert s[..4] == "2024" && s[5..7] == "02" && s[8..] == "15";
    Year2024Digits();
    TwoDigits("02");
    TwoDigits("15");
    MonthStarts2024();
  }

  /** The weekly scenario: seed Monday 2024-01-15, every 2 weeks on Tuesday
      and Thursday, until 2024-02-15, generated no later than the first
      Tuesday: instances on 01-16, 01-18, 01-30, 02-01, 02-13 and 02-15. */
  lemma WeeklyTuesdayThursdayScenario(data: AppointmentData, now: int)
    requires data.date == "2024-01-15"
    requires data.recurrence == Some(Recurrence(Weekly, Some(Num(2)), Some("2024-02-15"), Some([2, 4]), None))
    requires now <= MakeDay(2024, 0, 16) * MsPerDay
    ensures GenerationTerminates(data)
    ensures Expand(data, now) == Expanded(Instances(data, [
      MakeDay(2024, 0, 16), MakeDay(2024, 0, 18), MakeDay(2024, 0, 30),
      MakeDay(2024, 1, 1), MakeDay(2024, 1, 13), MakeDay(2024, 1, 15)]))
  {
    hide ParseIsoDate, MonthStart, ToCivil, MonthlyAdvance, Dates, Instances, FormatIsoDate, LaterDays;
    ParseJan15();
    ParseFeb15();
    var rec := data.recurrence.value;
    assert EndOf(rec) == EndAt(19768);
    MonthStarts2024();
    assert now <= 19738 * MsPerDay;
    ScenarioDates(PlanOf(rec, 19737), now);
    assert [MakeDay(2024, 0, 16), MakeDay(2024, 0, 18), MakeDay(2024, 0, 30),
      MakeDay(2024, 1, 1), MakeDay(2024, 1, 13), MakeDay(2024, 1, 15)]
      == [19738, 19740, 19752, 19754, 19766, 19768];
  }

  /** The days of the weekly scenario, by day number. */
  lemma ScenarioDates(p: Plan, now: int)
    requires PlanOk(p) && p.rec.kind == Weekly && p.rec.daysOfWeek == Some([2, 4]) && p.step == 2
    requires p.end == EndAt(19768) && now <= 19738 * MsPerDay
    ensures Dates(p, now, 19737, 0) == [19738, 19740, 19752, 19754, 19766, 19768]
  {
    hide MonthStart, ToCivil, MonthlyAdvance, Dates;
    TuesdayThursdayStep(p, now, 19737, 0);
    TuesdayThursdayStep(p, now, 19738, 0);
    TuesdayThursdayStep(p, now, 19740, 1);
    TuesdayThursdayStep(p, now, 19752, 2);
    TuesdayThursdayStep(p, now, 19754, 3);
    TuesdayThursdayStep(p, now, 19766, 4);
    TuesdayThursdayStep(p, now, 19768, 5);
    DatesUnfold(p, now, 19780, 6);
  }

  /** One step of the every-other-week Tuesday/Thursday rule of the scenario:
      a Monday moves to the Tuesday, a Tuesday to the Thursday, a Thursday to
      the Tuesday two weeks on; Tuesdays and Thursdays from 2024-01-16 on
      are emitted. */
  lemma TuesdayThursdayStep(p: Plan, now: int, cur: int, count: nat)
    requires PlanOk(p) && p.rec.kind == Weekly && p.rec.daysOfWeek == Some([2, 4]) && p.step == 2
    requires p.end == EndAt(19768) && cur <= 19768 && count < MaxAppointments
    requires Weekday(cur) == 1 || Weekday(cur) == 2 || Weekday(cur) == 4
    requires Weekday(cur) != 1 ==> now <= cur * MsPerDay
    ensures var next := cur + (if Weekday(cur) == 1 then 1 else if Weekday(cur) == 2 then 2 else 12);
      Dates(p, now, cur, count)
      == if Weekday(cur) == 1 then Dates(p, now, next, count) else [cur] + Dates(p, now, next, count + 1)
  {
    DatesUnfold(p, now, cur, count);
    LaterTuesdayThursday();
    hide MonthlyAdvance, Dates, LaterDays;
  }

  lemma LaterTuesdayThursday()
    ensures LaterDays([2, 4], 1) == [2, 4] && LaterDays([2, 4], 2) == [4] && LaterDays([2, 4], 4) == []
  {
    assert [2, 4][1..] == [4] && [4][1..] == [];
    assert LaterDays([], 1) == [] && LaterDays([], 2) == [] && LaterDays([], 4) == [];
    assert LaterDays([4], 1) == [4] && LaterDays([4], 2) == [4] && LaterDays([4], 4) == [];
  }

  lemma LaterMondayWednesdayFriday()
    ensures LaterDays([1, 3, 5], 0) == [1, 3, 5] && LaterDays([1, 3, 5], 1) == [3, 5]
    ensures LaterDays([1, 3, 5], 3) == [5]
  {
    assert [1, 3, 5][1..] == [3, 5] && [3, 5][1..] == [5] && [5][1..] == [];
    assert LaterDays([], 0) == [] && LaterDays([], 1) == [] && LaterDays([], 3) == [];
    assert LaterDays([5], 0) == [5] && LaterDays([5], 1) == [5] && LaterDays([5], 3) == [5];
    assert LaterDays([3, 5], 0) == [3, 5] && LaterDays([3, 5], 1) == [3, 5] && LaterDays([3, 5], 3) == [5];
  }

  /** A weekly Monday/Wednesday/Friday rule seeded on a Sunday emits the next
      Monday, Wednesday and Friday first, in that order. */
  lemma MondayWednesdayFridayFromSunday(p: Plan, now: int, seed: int)
    requires PlanOk(p) && p.rec.kind == Weekly && p.rec.daysOfWeek == Some([1, 3, 5])
    requires Weekday(seed) == 0 && !IsPast(seed + 1, now) && WithinEnd(p.end, seed + 5)
    ensures |Dates(p, now, seed, 0)| >= 3
    ensures Dates(p, now, seed, 0)[..3] == [seed + 1, seed + 3, seed + 5]
  {
    hide MonthlyAdvance, Dates, LaterDays, ToCivil, MonthStart;
    WeekdayShift(seed, 1);
    WeekdayShift(seed, 3);
    WeekdayShift(seed, 5);
    assert WithinEnd(p.end, seed) && WithinEnd(p.end, seed + 1) && WithinEnd(p.end, seed + 3);
    LaterMondayWednesdayFriday();
    DatesUnfold(p, now, seed, 0);
    DatesUnfold(p, now, seed + 1, 0);
    DatesUnfold(p, now, seed + 3, 1);
    DatesUnfold(p, now, seed + 5, 2);
    assert Advance(p, seed) == seed + 1;
    assert Advance(p, seed + 1) == seed + 3;
    assert Advance(p, seed + 3) == seed + 5;
  }

  /** A list in click order is followed in that order: with Thursday listed
      before Tuesday, the step from a Monday goes to Thursday, skipping the
      Tuesday in between. */
  lemma WeeklyFollowsListOrder(p: Plan, cur: int)
    requires p.rec.kind == Weekly && p.rec.daysOfWeek == Some([4, 2]) && Weekday(cur) == 1
    ensures Advance(p, cur) == cur + 3
  {
    hide MonthlyAdvance;
  }

  /** Monthly from 31 January 2024: setMonth rolls 31 February over to
      2 March, and the clamp then keeps day 31 of March, so February has
      no instance. */
  lemma MonthlyFromJanuary31()
    ensures MonthlyAdvance(MakeDay(2024, 0, 31), 1, 31) == MakeDay(2024, 2, 31)
  {
    hide MonthStart, ToCivil;
    MonthStarts2024();
    ToCivilMakeDay(Civil(2024, 1, 31));
    assert MakeDay(2024, 0 + 1, 31) == MakeDay(2024, 2, 2);
    ToCivilMakeDay(Civil(2024, 3, 2));
  }

  /** Monthly from 31 March 2024 with the seed's day 31: 31 April rolls over
      to 1 May, and the clamp keeps day 31 of May, so the 30-day April has
      no instance. */
  lemma MonthlyFromMarch31()
    ensures MonthlyAdvance(MakeDay(2024, 2, 31), 1, 31) == MakeDay(2024, 4, 31)
  {
    hide MonthStart, ToCivil;
    MonthStarts2024();
    ToCivilMakeDay(Civil(2024, 3, 31));
    assert MakeDay(2024, 2 + 1, 31) == MakeDay(2024, 4, 1);
    ToCivilMakeDay(Civil(2024, 5, 1));
  }
}
