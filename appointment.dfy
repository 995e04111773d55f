/** The appointment request the form submits and the service receives
    (CreateAppointmentDTO), with the recurrence object it carries. */
module Appointment {
  import opened Base

  /** The recurrence type: 'none', 'daily', 'weekly' or 'monthly'. */
  datatype RecurrenceType = NoneType | Daily | Weekly | Monthly

  /** The fields the expander adds to the recurrence object of each instance. */
  datatype InstanceInfo = InstanceInfo(
    isRecurringInstance: bool,
    originalDate: string,
    sequence: int,
    totalInstances: int)

  /** The recurrence object. An absent optional field is None; `instance` holds
      the fields added to a generated instance. */
  datatype Recurrence = Recurrence(
    kind: RecurrenceType,
    interval: Option<JsNumber>,
    endDate: Option<string>,
    daysOfWeek: Option<seq<int>>,
    instance: Option<InstanceInfo>)

  /** The recurrence object `{type: 'none'}`. */
  const NoRecurrence: Recurrence := Recurrence(NoneType, None, None, None, None)

  /** Identifiers are JavaScript numbers (parseInt of a form field, so they
      may be NaN); the other fields are strings as the form produces them. */
  datatype AppointmentData = AppointmentData(
    doctorId: JsNumber,
    patientId: JsNumber,
    date: string,
    startTime: string,
    endTime: string,
    notes: Option<string>,
    recurrence: Option<Recurrence>)

  /** The request is recurring: it has a recurrence object whose type is not 'none'. */
  predicate IsRecurring(data: AppointmentData) {
    data.recurrence.Some? && data.recurrence.value.kind != NoneType
  }
}
