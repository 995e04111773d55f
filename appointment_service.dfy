/** createAppointment: the local checks of a request (required fields, time
    normalisation, start before end), the server-side slot validation, and
    the single or recurring POST it ends with. The server is a parameter:
    `validate` answers the validate-time endpoint for the request's clinic. */
module AppointmentService {
  import opened Base
  import opened TimeFormat
  import opened Calendar
  import opened Appointment
  import opened Recurrence

  /** The validate-time endpoint: the errors it reports for a doctor, a date
      and a start and end time (its failure answer, a single system_error
      record, is one of its possible answers). */
  type Validator = (JsNumber, string, string, string) -> seq<ValidationError>

  /** How a call of createAppointment ends: an Error whose message is the
      JSON list of `errors`; the POST of one appointment; the POST of a
      recurring series; the RangeError the series generator throws for an
      unparsable date; or a request whose series the model does not expand
      (the generator may not terminate on it). */
  datatype Outcome =
    | Rejected(errors: seq<ValidationError>)
    | PostedSingle(path: string, body: AppointmentData)
    | PostedRecurring(path: string, appointments: seq<AppointmentData>, recurrence: Appointment.Recurrence)
    | Crashed
    | Unmodelled

  // ----- required fields -----

  /** The five required fields, in the order they are checked. */
  datatype RequiredField = DoctorField | PatientField | DateField | StartField | EndField

  function FieldName(f: RequiredField): string {
    match f
    case DoctorField => "doctor_id"
    case PatientField => "patient_id"
    case DateField => "date"
    case StartField => "start_time"
    case EndField => "end_time"
  }

  function FieldMessage(f: RequiredField): string {
    match f
    case DoctorField => "Médico é obrigatório"
    case PatientField => "Paciente é obrigatório"
    case DateField => "Data é obrigatória"
    case StartField => "Horário de início é obrigatório"
    case EndField => "Horário de término é obrigatório"
  }

  /** The JavaScript falsiness test `!data[field]`: NaN, 0 or the empty string. */
  predicate Missing(data: AppointmentData, f: RequiredField) {
    match f
    case DoctorField => !Truthy(data.doctorId)
    case PatientField => !Truthy(data.patientId)
    case DateField => data.date == ""
    case StartField => data.startTime == ""
    case EndField => data.endTime == ""
  }

  function RequiredError(f: RequiredField): ValidationError {
    ValidationError(FieldMessage(f), Some(FieldName(f)), "required_field")
  }

  /** The error for one required field if it is missing. */
  function IfMissing(data: AppointmentData, f: RequiredField): seq<ValidationError> {
    if Missing(data, f) then [RequiredError(f)] else []
  }

  /** The required_field errors, in the order the fields are listed. */
  function MissingFields(data: AppointmentData): seq<ValidationError> {
    IfMissing(data, DoctorField) + IfMissing(data, PatientField) + IfMissing(data, DateField)
    + IfMissing(data, StartField) + IfMissing(data, EndField)
  }

  /** Every required field is present. */
  predicate AllPresent(data: AppointmentData) {
    Truthy(data.doctorId) && Truthy(data.patientId) && data.date != "" && data.startTime != "" && data.endTime != ""
  }

  lemma AllPresentNoErrors(data: AppointmentData)
    ensures MissingFields(data) == [] <==> AllPresent(data)
  {
  }

  /** Distinct fields have distinct names, hence distinct errors. */
  lemma RequiredErrorInjective()
    ensures forall f, g :: RequiredError(f) == RequiredError(g) ==> f == g
  {
    forall f, g | FieldName(f) == FieldName(g)
      ensures f == g
    {
      assert |FieldName(f)| == |FieldName(g)| && FieldName(f)[0] == FieldName(g)[0];
    }
  }

  /** One required_field error per missing field and none for a present one. */
  lemma MissingFieldsExactly(data: AppointmentData)
    ensures var r := MissingFields(data);
      |r| <= 5
      && (r == [] <==> forall f :: !Missing(data, f))
      && (forall e :: e in r ==> e.code == "required_field" && exists f :: Missing(data, f) && e == RequiredError(f))
      && (forall f :: Missing(data, f) <==> RequiredError(f) in r)
  {
    hide FieldName, FieldMessage, Missing;
    RequiredErrorInjective();
    var r := MissingFields(data);
    assert r == IfMissing(data, DoctorField) + IfMissing(data, PatientField) + IfMissing(data, DateField)
      + IfMissing(data, StartField) + IfMissing(data, EndField);
    forall e | e in r
      ensures e.code == "required_field" && exists f :: Missing(data, f) && e == RequiredError(f)
    {
      var f :| e in IfMissing(data, f);
    }
    forall f
      ensures Missing(data, f) <==> RequiredError(f) in r
    {
      assert f == DoctorField || f == PatientField || f == DateField || f == StartField || f == EndField;
    }
  }

  // ----- the local checks -----

  /** The range-check record, thrown when the start is not before the end. */
  const RangeErrors: seq<ValidationError> :=
    [ValidationError("O horário de início deve ser anterior ao horário de término", Some("time"), "invalid_time_range")]

  /** The record thrown when a recurring request expands to no appointment. */
  const GenerationFailed: seq<ValidationError> :=
    [ValidationError("Não foi possível gerar os agendamentos recorrentes", None, "recurring_generation_failed")]

  /** Minutes after midnight of a canonical "HH:MM" time. */
  function ClockMinutes(t: string): (m: nat)
    ensures IsCanonical(t) ==> m < 24 * 60
  {
    if IsCanonical(t) then DigitsValue(t[..2]) * 60 + DigitsValue(t[3..]) else 0
  }

  /** `new Date(date + 'T' + start) >= new Date(date + 'T' + end)`: both
      sides are local times of the same day, and both are the Invalid Date
      (every comparison false) when the date does not parse. */
  predicate StartNotBeforeEnd(date: string, start: string, end: string) {
    ParseIsoDate(date).Some? && ClockMinutes(start) >= ClockMinutes(end)
  }

  /** The outcome of the checks before the server is asked: the request with
      its normalised times, or the errors of the first failing check. */
  datatype LocalCheck = Passed(data: AppointmentData) | Failed(errors: seq<ValidationError>)

  /** Required fields, then the start time, then the end time, then the range. */
  function CheckLocally(data: AppointmentData, parseDateTime: string -> Option<WallClock>): LocalCheck {
    var missing := MissingFields(data);
    if missing != [] then Failed(missing)
    else
      match Normalize(data.startTime, parseDateTime)
      case Invalid(e) => Failed(e)
      case Canonical(s) =>
        match Normalize(data.endTime, parseDateTime)
        case Invalid(e) => Failed(e)
        case Canonical(t) =>
          if StartNotBeforeEnd(data.date, s, t) then Failed(RangeErrors)
          else Passed(data.(startTime := s, endTime := t))
  }

  /** The request object after the local checks: the start time is written
      back as soon as it is normalised, the end time after it. */
  function TimesWritten(data: AppointmentData, parseDateTime: string -> Option<WallClock>): AppointmentData {
    if MissingFields(data) != [] then data
    else
      match Normalize(data.startTime, parseDateTime)
      case Invalid(_) => data
      case Canonical(s) =>
        match Normalize(data.endTime, parseDateTime)
        case Invalid(_) => data.(startTime := s)
        case Canonical(t) => data.(startTime := s, endTime := t)
  }

  // ----- the recurring POST -----

  /** allValidations.flat(): the errors the server reports for every instance, in order. */
  function AllErrors(validate: Validator, appointments: seq<AppointmentData>): seq<ValidationError> {
    if appointments == [] then []
    else
      var a := appointments[0];
      validate(a.doctorId, a.date, a.startTime, a.endTime) + AllErrors(validate, appointments[1..])
  }

  /** The flattened list is empty exactly when the server accepts every instance. */
  lemma {:induction false} AllErrorsEmpty(validate: Validator, appointments: seq<AppointmentData>)
    ensures AllErrors(validate, appointments) == [] <==>
      forall i :: 0 <= i < |appointments| ==>
        validate(appointments[i].doctorId, appointments[i].date, appointments[i].startTime, appointments[i].endTime) == []
  {
    if appointments != [] {
      AllErrorsEmpty(validate, appointments[1..]);
      assert forall i :: 1 <= i < |appointments| ==> appointments[i] == appointments[1..][i - 1];
    }
  }

  /** The recurrence object of one entry of the payload: the instance's own
      object with isRecurringInstance, the seed's date, `sequence || 0` and
      `totalInstances || appointments.length`. */
  function RecurrenceInfo(r: Appointment.Recurrence, originalDate: string, count: int): Appointment.Recurrence {
    var sequence := if r.instance.Some? then r.instance.value.sequence else 0;
    var total := if r.instance.Some? && r.instance.value.totalInstances != 0 then r.instance.value.totalInstances else count;
    r.(instance := Some(InstanceInfo(true, originalDate, sequence, total)))
  }

  /** appointmentsWithRecurrence. */
  function WithRecurrenceInfo(appointments: seq<AppointmentData>, originalDate: string): seq<AppointmentData>
    requires forall i :: 0 <= i < |appointments| ==> appointments[i].recurrence.Some?
  {
    seq(|appointments|, i requires 0 <= i < |appointments| =>
      appointments[i].(recurrence := Some(RecurrenceInfo(appointments[i].recurrence.value, originalDate, |appointments|))))
  }

  /** The recurrence information added before the POST repeats what the
      series generator already wrote into every instance. */
  lemma RecurrenceInfoUnchanged(data: AppointmentData, ds: seq<int>)
    requires data.recurrence.Some?
    ensures var apts := Instances(data, ds);
      (forall i :: 0 <= i < |apts| ==> apts[i].recurrence.Some?)
      && WithRecurrenceInfo(apts, data.date) == apts
  {
    hide FormatIsoDate;
    var apts := Instances(data, ds);
    InstanceFields(data, ds);
    var w := WithRecurrenceInfo(apts, data.date);
    assert |w| == |apts|;
    forall i | 0 <= i < |apts|
      ensures w[i] == apts[i]
    {
      var r := apts[i].recurrence.value;
      assert r.instance == Some(InstanceInfo(true, data.date, i + 1, MaxAppointments));
      assert RecurrenceInfo(r, data.date, |apts|) == r;
    }
  }

  // ----- createAppointment -----

  function SinglePath(clinicSlug: string): string {
    "/api/v2/" + clinicSlug + "/appointments"
  }

  function RecurringPath(clinicSlug: string): string {
    "/api/v2/" + clinicSlug + "/appointments/recurring"
  }

  /** createAppointment as a function of the request, the server and the clock. */
  function CreateOutcome(clinicSlug: string, data: AppointmentData, validate: Validator,
                         parseDateTime: string -> Option<WallClock>, now: int): Outcome
  {
    match CheckLocally(data, parseDateTime)
    case Failed(errors) => Rejected(errors)
    case Passed(d) =>
      var errors := validate(d.doctorId, d.date, d.startTime, d.endTime);
      if errors != [] then Rejected(errors)
      else if !IsRecurring(d) then
        PostedSingle(SinglePath(clinicSlug), d.(recurrence := Some(d.recurrence.GetOr(NoRecurrence))))
      else if !GenerationTerminates(d) then Unmodelled
      else
        match Expand(d, now)
        case InvalidTimeValue => Crashed
        case Expanded(apts) =>
          if apts == [] then Rejected(GenerationFailed)
          else
            var all := AllErrors(validate, apts);
            if all != [] then Rejected(all)
            else
              ExpandShape(d, now);
              PostedRecurring(RecurringPath(clinicSlug), WithRecurrenceInfo(apts, d.date), d.recurrence.value)
  }

  /** Every expanded appointment carries a recurrence object. */
  lemma ExpandShape(data: AppointmentData, now: int)
    requires GenerationTerminates(data)
    ensures var x := Expand(data, now);
      x.Expanded? ==> forall i :: 0 <= i < |x.appointments| ==> x.appointments[i].recurrence.Some?
  {
    if IsRecurring(data) && ParseIsoDate(data.date).Some? {
      var seed := ParseIsoDate(data.date).value;
      InstanceFields(data, Dates(PlanOf(data.recurrence.value, seed), now, seed, 0));
    }
  }

  /** The request object createAppointment receives; it writes the normalised
      times back into it. */
  class AppointmentRequest {
    var data: AppointmentData

    constructor (data: AppointmentData)
      ensures this.data == data
    {
      this.data := data;
    }

    /** createAppointment(clinicSlug, data). */
    method CreateAppointment(clinicSlug: string, validate: Validator,
                             parseDateTime: string -> Option<WallClock>, now: int) returns (o: Outcome)
      modifies this
      ensures o == CreateOutcome(clinicSlug, old(data), validate, parseDateTime, now)
      ensures data == TimesWritten(old(data), parseDateTime)
    {
      hide Normalize, Expand, AllErrors, WithRecurrenceInfo, GenerationTerminates, MissingFields;
      var missing := MissingFields(data);
      if |missing| > 0 {
        return Rejected(missing);
      }
      var start := Normalize(data.startTime, parseDateTime);
      if start.Invalid? {
        return Rejected(start.errors);
      }
      data := data.(startTime := start.time);
      var end := Normalize(data.endTime, parseDateTime);
      if end.Invalid? {
        return Rejected(end.errors);
      }
      data := data.(endTime := end.time);
      if StartNotBeforeEnd(data.date, data.startTime, data.endTime) {
        return Rejected(RangeErrors);
      }
      var errors := validate(data.doctorId, data.date, data.startTime, data.endTime);
      if |errors| > 0 {
        return Rejected(errors);
      }
      if !IsRecurring(data) {
        return PostedSingle(SinglePath(clinicSlug), data.(recurrence := Some(data.recurrence.GetOr(NoRecurrence))));
      }
      if !GenerationTerminates(data) {
        return Unmodelled;
      }
      var series := GenerateRecurringAppointments(data, now);
      if series.InvalidTimeValue? {
        return Crashed;
      }
      var appointments := series.appointments;
      if |appointments| == 0 {
        return Rejected(GenerationFailed);
      }
      var allErrors := AllErrors(validate, appointments);
      if |allErrors| > 0 {
        return Rejected(allErrors);
      }
      ExpandShape(data, now);
      return PostedRecurring(RecurringPath(clinicSlug), WithRecurrenceInfo(appointments, data.date), data.recurrence.value);
    }
  }

  // ----- properties -----

  /** Every error of a local failure comes from one of the three local checks;
      the fallback record with code invalid_time_format is never produced,
      since everything thrown inside the inner try is an Error and is rethrown. */
  lemma LocalErrorCodes(data: AppointmentData, parseDateTime: string -> Option<WallClock>)
    ensures var r := CheckLocally(data, parseDateTime);
      r.Failed? ==>
        r.errors != []
        && (MissingFields(data) != [] ==> r.errors == MissingFields(data))
        && forall i :: 0 <= i < |r.errors| ==>
             r.errors[i].code in {"required_field", "invalid_format", "invalid_time_range"}
  {
    hide Normalize, ParseIsoDate, MissingFields, ClockMinutes;
    MissingFieldsExactly(data);
  }

  /** A request that fails a local check is rejected with that check's errors
      whatever the server would answer: the server is not consulted. */
  lemma LocalFailureSkipsServer(clinicSlug: string, data: AppointmentData, v1: Validator, v2: Validator,
                                parseDateTime: string -> Option<WallClock>, now: int)
    requires CheckLocally(data, parseDateTime).Failed?
    ensures CreateOutcome(clinicSlug, data, v1, parseDateTime, now)
         == CreateOutcome(clinicSlug, data, v2, parseDateTime, now)
         == Rejected(CheckLocally(data, parseDateTime).errors)
  {
  }

  /** A request that passes the local checks has canonical times, differs
      from the submitted one only in its times, has its start before its end
      when its date parses, and passes the local checks again unchanged. */
  lemma LocalCheckNormalises(data: AppointmentData, parseDateTime: string -> Option<WallClock>)
    requires CheckLocally(data, parseDateTime).Passed?
    ensures var d := CheckLocally(data, parseDateTime).data;
      IsCanonical(d.startTime) && IsCanonical(d.endTime)
      && d == data.(startTime := d.startTime, endTime := d.endTime)
      && (ParseIsoDate(d.date).Some? ==> ClockMinutes(d.startTime) < ClockMinutes(d.endTime))
      && CheckLocally(d, parseDateTime) == CheckLocally(data, parseDateTime)
      && TimesWritten(data, parseDateTime) == d
  {
    hide Normalize, MissingFields, ParseIsoDate, FieldName, FieldMessage;
    var d := CheckLocally(data, parseDateTime).data;
    NormalizeResultCanonical(data.startTime, parseDateTime);
    NormalizeResultCanonical(data.endTime, parseDateTime);
    CanonicalIsFixedPoint(d.startTime, parseDateTime);
    CanonicalIsFixedPoint(d.endTime, parseDateTime);
    AllPresentNoErrors(data);
    AllPresentNoErrors(d);
  }

  /** When the date does not parse, the range check compares two Invalid
      Dates and never fires: equal or reversed times pass. */
  lemma UnparsableDateSkipsRangeCheck(data: AppointmentData, parseDateTime: string -> Option<WallClock>)
    requires MissingFields(data) == [] && ParseIsoDate(data.date).None?
    requires Normalize(data.startTime, parseDateTime).Canonical? && Normalize(data.endTime, parseDateTime).Canonical?
    ensures CheckLocally(data, parseDateTime).Passed?
  {
  }

  /** With a parsable date and times that normalise, the range error is
      raised exactly when the start is not strictly before the end. */
  lemma RangeCheckExactly(data: AppointmentData, parseDateTime: string -> Option<WallClock>)
    requires MissingFields(data) == [] && ParseIsoDate(data.date).Some?
    requires Normalize(data.startTime, parseDateTime).Canonical? && Normalize(data.endTime, parseDateTime).Canonical?
    ensures var s := Normalize(data.startTime, parseDateTime).time;
      var t := Normalize(data.endTime, parseDateTime).time;
      CheckLocally(data, parseDateTime) == (if ClockMinutes(s) < ClockMinutes(t) then Passed(data.(startTime := s, endTime := t)) else Failed(RangeErrors))
  {
  }

  /** When the start time normalises and the end time does not, the call is
      rejected yet the request object keeps its rewritten start time. */
  lemma StartWrittenBeforeEndFails(data: AppointmentData, parseDateTime: string -> Option<WallClock>)
    requires MissingFields(data) == []
    requires Normalize(data.startTime, parseDateTime).Canonical? && Normalize(data.endTime, parseDateTime).Invalid?
    ensures CheckLocally(data, parseDateTime) == Failed(FormatErrors)
    ensures TimesWritten(data, parseDateTime) == data.(startTime := Normalize(data.startTime, parseDateTime).time)
  {
  }

  /** Nothing is posted unless the request passes the local checks and the
      server reports no error for it, nor, for a series, for any instance.
      Every posted appointment is one the server accepted. */
  lemma PostedOnlyWhenValid(clinicSlug: string, data: AppointmentData, validate: Validator,
                            parseDateTime: string -> Option<WallClock>, now: int)
    ensures var o := CreateOutcome(clinicSlug, data, validate, parseDateTime, now);
      var c := CheckLocally(data, parseDateTime);
      (o.PostedSingle? || o.PostedRecurring?) ==>
        c.Passed? && validate(c.data.doctorId, c.data.date, c.data.startTime, c.data.endTime) == []
        && (o.PostedSingle? ==> validate(o.body.doctorId, o.body.date, o.body.startTime, o.body.endTime) == [])
        && (o.PostedRecurring? ==> forall i :: 0 <= i < |o.appointments| ==>
              validate(o.appointments[i].doctorId, o.appointments[i].date,
                       o.appointments[i].startTime, o.appointments[i].endTime) == [])
  {
    hide Normalize, ParseIsoDate, MissingFields, Expand, AllErrors, GenerationTerminates, ClockMinutes;
    var o := CreateOutcome(clinicSlug, data, validate, parseDateTime, now);
    var c := CheckLocally(data, parseDateTime);
    if o.PostedRecurring? {
      var d := c.data;
      var apts := Expand(d, now).appointments;
      AllErrorsEmpty(validate, apts);
      ExpandShape(d, now);
      assert o.appointments == WithRecurrenceInfo(apts, d.date);
    }
  }

  /** A non-recurring request is posted to the clinic's appointments path as
      the normalised request, with `{type: 'none'}` when it had no recurrence. */
  lemma SinglePost(clinicSlug: string, data: AppointmentData, validate: Validator,
                   parseDateTime: string -> Option<WallClock>, now: int)
    requires !IsRecurring(data)
    ensures var o := CreateOutcome(clinicSlug, data, validate, parseDateTime, now);
      o.Rejected? || o.PostedSingle?
    ensures var o := CreateOutcome(clinicSlug, data, validate, parseDateTime, now);
      var c := CheckLocally(data, parseDateTime);
      o.PostedSingle? ==>
        c.Passed?
        && o.path == "/api/v2/" + clinicSlug + "/appointments"
        && o.body == c.data.(recurrence := Some(if data.recurrence.Some? then data.recurrence.value else NoRecurrence))
        && o.body.recurrence.value.kind == NoneType
  {
    hide Normalize, ParseIsoDate, MissingFields, Expand, AllErrors, GenerationTerminates, ClockMinutes, CheckLocally;
    if CheckLocally(data, parseDateTime).Passed? {
      LocalCheckNormalises(data, parseDateTime);
    }
  }

  /** A recurring request whose date parses is posted, if at all, as the
      series the generator expands from the normalised request: between 1
      and 52 appointments on strictly increasing admissible days, with the
      request's own recurrence object beside them. */
  lemma RecurringPost(clinicSlug: string, data: AppointmentData, validate: Validator,
                      parseDateTime: string -> Option<WallClock>, now: int)
    requires IsRecurring(data) && ParseIsoDate(data.date).Some?
    ensures var o := CreateOutcome(clinicSlug, data, validate, parseDateTime, now);
      o.Rejected? || o.PostedRecurring? || o.Unmodelled?
    ensures var o := CreateOutcome(clinicSlug, data, validate, parseDateTime, now);
      var c := CheckLocally(data, parseDateTime);
      o.PostedRecurring? ==>
        c.Passed? && GenerationTerminates(data)
        && var seed := ParseIsoDate(data.date).value;
        var p := PlanOf(data.recurrence.value, seed);
        var ds := Dates(p, now, seed, 0);
        o.path == "/api/v2/" + clinicSlug + "/appointments/recurring"
        && o.recurrence == data.recurrence.value
        && o.appointments == Instances(c.data, ds)
        && 1 <= |ds| <= MaxAppointments && StrictlyIncreasing(ds)
        && forall i :: 0 <= i < |ds| ==> Admissible(p, now, ds[i]) && ds[i] >= seed
  {
    hide Normalize, MissingFields, AllErrors, ClockMinutes, Expand, Dates, FormatIsoDate, CheckLocally, Instances;
    var c := CheckLocally(data, parseDateTime);
    if c.Passed? {
      LocalCheckNormalises(data, parseDateTime);
      var d := c.data;
      if GenerationTerminates(d) {
        ExpandSeries(d, now);
        var seed := ParseIsoDate(d.date).value;
        var ds := Dates(PlanOf(d.recurrence.value, seed), now, seed, 0);
        RecurrenceInfoUnchanged(d, ds);
        InstanceFields(d, ds);
      }
    }
  }

  /** A recurring request with an end date and an unparsable date expands to
      nothing and is rejected with recurring_generation_failed; without an
      end date the generator throws. */
  lemma UnparsableSeries(clinicSlug: string, data: AppointmentData, validate: Validator,
                         parseDateTime: string -> Option<WallClock>, now: int)
    requires IsRecurring(data) && ParseIsoDate(data.date).None?
    requires CheckLocally(data, parseDateTime).Passed?
    requires var d := CheckLocally(data, parseDateTime).data;
      validate(d.doctorId, d.date, d.startTime, d.endTime) == []
    requires GenerationTerminates(data)
    ensures var o := CreateOutcome(clinicSlug, data, validate, parseDateTime, now);
      if EndOf(data.recurrence.value) == NoEnd then o == Crashed else o == Rejected(GenerationFailed)
  {
    var d := CheckLocally(data, parseDateTime).data;
    assert GenerationTerminates(d);
  }
}
