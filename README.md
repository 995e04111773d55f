# Clinic appointments core, modelled in Dafny

This project models the appointment-booking core of a clinic management web
application and proves properties of the model. It covers the following.

- **Appointment service.** Creating an appointment. First the five required
  fields are checked, then the start and end times are normalised to "HH:MM"
  and the start must come before the end. Then the server validates the slot.
  A single appointment is posted as it is. A recurring one is expanded into
  its instances (daily, weekly on listed weekdays, or monthly, at most 52),
  each instance is validated, and the series is posted. The time normaliser
  and the date filter of the series belong here too.
- **New-appointment form.** The payload it submits: an end time of start
  plus duration on a local clock, and the recurrence block. It also covers the
  recurrence-type selector and the weekday toggles.
- **Route guard.** The middleware that lets a page request through or
  redirects it, from its path and the `token` and `clinicSlug` cookies.
- **API path builders.** The appointment routes.
- **Settings tabs.** The clinic-units tab (add, edit, confirmed delete) and the
  notification switches.
- **Appointments summary.** Per-status counts and the number of appointments
  on today's date.

Modules, one per file:

| module | file | models |
|---|---|---|
| `Base` | base.dfy | JavaScript values the core uses: NaN-able numbers, truthiness, decimal digit strings, `padStart(2, '0')`, `split`/`join` |
| `TimeFormat` | time_format.dfy | `normalizeTimeFormat` |
| `Calendar` | calendar.dfy | the Date arithmetic the series needs: day numbers since 1970-01-01, rollover of `setMonth`/`setDate`, `getDay`, ISO `YYYY-MM-DD` parsing and `toISOString().split('T')[0]` |
| `Appointment` | appointment.dfy | the create-appointment request and its recurrence block |
| `Recurrence` | recurrence.dfy | `isValidAppointmentDate` and `generateRecurringAppointments` |
| `RecurrenceExamples` | recurrence_examples.dfy | worked series |
| `AppointmentService` | appointment_service.dfy | `createAppointment` |
| `AppointmentForm` | appointment_form.dfy | the form handlers of the new-appointment modal and `parseInt` |
| `Middleware` | middleware.dfy | the route guard |
| `ApiRoutes` | api_routes.dfy | `buildPath`, `buildClinicPath`, `API_ROUTES.CLINICS.APPOINTMENTS` |
| `Units` | units.dfy | the units tab |
| `Notifications` | notifications.dfy | the notification settings tab |
| `Summary` | summary.dfy | the summary card's reduce |

### Effects

Everything outside the code becomes a parameter:

- The current instant `now` is given in milliseconds and is compared with
  local midnights.
- The slot validator (`validateAppointmentTime`, a POST) is a function from
  `(doctor, date, start, end)` to the errors the server reports.
- The Date parser used for datetime strings is a function from the string to
  an optional wall-clock time.
- The summary's day of a start time is a function too.

`createAppointment` returns an `Outcome`:

- the errors it throws;
- the path and body of the POST it sends;
- `Crashed`, the RangeError that `toISOString` throws;
- `Unmodelled`, for the inputs on which the series loop of the source may
  not end (see "## Left out").

The server's response to the POST is not modelled.

## Model

| member | source | states |
|---|---|---|
| TimeFormat.Normalize | services/appointmentService.ts:485-541 | every rejection, whatever its cause, is the one error `invalid_format` on field `time` |
| TimeFormat.Validate | services/appointmentService.ts:512-533 | a failed pattern or range test gives the `invalid_format` error |
| TimeFormat.NormalizeAcceptsExactly | services/appointmentService.ts:493-516 | a hyphen-free input is accepted exactly when its trimmed text, cut after the minutes, matches the time pattern |
| TimeFormat.NormalizeResultCanonical | services/appointmentService.ts:512-533 | an accepted time is canonical "HH:MM" and holds the hour and minute the pattern matched |
| TimeFormat.PatternBounds | services/appointmentService.ts:513-530 | the pattern admits only hours 0-23 and minutes 0-59, so the later range test never fails |
| TimeFormat.ValidateMatching | services/appointmentService.ts:512-533 | a matching string normalises to the zero-padded rendering of its fields |
| TimeFormat.ValidateClock | services/appointmentService.ts:502-533 | a padded hour and minute pass exactly when the hour is below 24 and the minute below 60 |
| TimeFormat.DateTimeBranch | services/appointmentService.ts:496-505 | a datetime input passes exactly when the Date parses and its clock is in range |
| TimeFormat.CanonicalIsFixedPoint | services/appointmentService.ts:485-541 | a canonical time normalises to itself |
| TimeFormat.NormalizeIdempotent | services/appointmentService.ts:485-541 | normalising an accepted result again gives the same result |
| TimeFormat.NormalizeDropsSeconds | services/appointmentService.ts:506-510 | "HH:MM:00" normalises to "HH:MM" |
| TimeFormat.SecondsCut | services/appointmentService.ts:509 | the seconds field after a canonical time is cut off |
| TimeFormat.TrimSlice | services/appointmentService.ts:493 | `trim` removes exactly the leading and trailing whitespace |
| TimeFormat.ExampleSecondsDropped | services/appointmentService.ts:495-533 | "13:40:00" becomes "13:40" |
| TimeFormat.ExampleHourPadded | services/appointmentService.ts:533 | "9:05" becomes "09:05" |
| TimeFormat.ExampleOneMinuteDigitRejected | services/appointmentService.ts:513-516 | "9:5" is rejected |
| TimeFormat.ExampleHour24Rejected | services/appointmentService.ts:513-516 | "24:00" is rejected |
| Calendar.ToCivilMakeDay | services/appointmentService.ts:424 | a valid calendar date, turned into a day and back, is unchanged (`getDate`/`setDate` agree) |
| Calendar.MonthStartStep | services/appointmentService.ts:450-451 | consecutive months are adjacent, so day overflow rolls into the next month |
| Calendar.WeekdayShift | services/appointmentService.ts:429 | `getDay` advances by n modulo 7 when the date advances n days |
| Calendar.LastDayOfMonthIs | services/appointmentService.ts:455-459 | day 0 of the following month is the last day of the month |
| Calendar.ParseFormat | services/appointmentService.ts:396-409 | a date of years 0-9999, formatted as `YYYY-MM-DD` and parsed again, is itself |
| Calendar.FormatParse | services/appointmentService.ts:396-409 | a string that parses formats back to itself |
| Recurrence.IsValidAppointmentDate | services/appointmentService.ts:469-483 | an accepted date is not in the past and, under a weekday list, falls on a listed weekday; a date not in the past without a weekday list is accepted |
| Recurrence.EmptyWeekdayListRejectsEveryDate | services/appointmentService.ts:476-478 | a weekly rule with an empty list rejects every date |
| Recurrence.TodayRejectedAfterMidnight | services/appointmentService.ts:471 | today's date is rejected once today's midnight has passed |
| Recurrence.LaterDaysExactly | services/appointmentService.ts:430 | the later days are exactly the listed days after the current weekday |
| Recurrence.LaterDaysFirst | services/appointmentService.ts:430-436 | the next day taken is the first later entry in list order |
| Recurrence.MonthlyAdvanceLater | services/appointmentService.ts:449-461 | the monthly step moves strictly forward |
| Recurrence.AdvanceLater | services/appointmentService.ts:422-463 | every step of the loop moves strictly forward |
| Recurrence.AdvanceListed | services/appointmentService.ts:427-443 | a weekly step with a list lands on a listed weekday |
| Recurrence.DatesLength | services/appointmentService.ts:399-404 | at most 52 dates are emitted |
| Recurrence.DatesAdmissible | services/appointmentService.ts:404-419 | every emitted date is not in the past, not after the end date, on a listed weekday, and not before the seed |
| Recurrence.DatesIncreasing | services/appointmentService.ts:404-464 | the emitted dates strictly increase, so none repeats |
| Recurrence.DailyClosedForm | services/appointmentService.ts:423-425 | a daily rule without an end, from a date not in the past, emits 52 dates `interval` days apart |
| Recurrence.InstancesSnoc | services/appointmentService.ts:407-418 | each emitted date appends one instance, numbered by the count so far |
| Recurrence.InstanceFields | services/appointmentService.ts:407-418 | instance i keeps the request's fields, carries date i formatted, sequence i+1, total 52 and the seed as original date |
| Recurrence.GenerateRecurringAppointments | services/appointmentService.ts:387-467 | the loop computes the series of `Expand`, with at most 52 instances |
| Recurrence.EmitInstances | services/appointmentService.ts:402-464 | the loop emits the instances of the dates `Dates` defines |
| Recurrence.ExpandSeries | services/appointmentService.ts:387-467 | a recurring request with a parseable date expands to the instances of at most 52 strictly increasing admissible dates |
| RecurrenceExamples.WeeklyTuesdayThursdayScenario | services/appointmentService.ts:404-448 | every other week on Tuesday and Thursday, from Monday 2024-01-15 to 2024-02-15, gives six dates |
| RecurrenceExamples.MondayWednesdayFridayFromSunday | services/appointmentService.ts:427-436 | a Monday-Wednesday-Friday rule seeded on a Sunday emits the following Monday, Wednesday and Friday first |
| RecurrenceExamples.WeeklyFollowsListOrder | services/appointmentService.ts:430-436 | with the list [Thursday, Tuesday] a Monday steps to Thursday, passing Tuesday |
| RecurrenceExamples.MonthlyFromJanuary31 | services/appointmentService.ts:449-461 | monthly from January 31 lands on March 31 |
| RecurrenceExamples.MonthlyFromMarch31 | services/appointmentService.ts:449-461 | monthly from March 31 lands on May 31 |
| AppointmentService.MissingFieldsExactly | services/appointmentService.ts:143-161 | a field is missing exactly when its required_field error is listed; the list is empty exactly when none is missing |
| AppointmentService.AllPresentNoErrors | services/appointmentService.ts:152-154 | there are no required-field errors exactly when all five fields are truthy |
| AppointmentService.RequiredErrorInjective | services/appointmentService.ts:144-150 | the five required-field errors are distinct |
| AppointmentService.ClockMinutes | services/appointmentService.ts:169-173 | a canonical time has fewer minutes than a day |
| AppointmentService.LocalErrorCodes | services/appointmentService.ts:143-190 | a local failure reports at least one error, each with code required_field, invalid_format or invalid_time_range; when fields are missing, exactly their errors are reported |
| AppointmentService.LocalCheckNormalises | services/appointmentService.ts:164-177 | a request that passes has canonical times, differs only in them, starts before it ends when its date parses, and passes again unchanged |
| AppointmentService.UnparsableDateSkipsRangeCheck | services/appointmentService.ts:169-173 | with an unparsable date the start/end comparison is false and the range check passes |
| AppointmentService.RangeCheckExactly | services/appointmentService.ts:169-178 | with a parseable date, the request passes exactly when the start is before the end |
| AppointmentService.StartWrittenBeforeEndFails | services/appointmentService.ts:166-167 | when the end time fails, the normalised start time is already written to the request |
| AppointmentService.LocalFailureSkipsServer | services/appointmentService.ts:143-190 | a local failure is returned as it is, and the server's answer cannot change it |
| AppointmentService.PostedOnlyWhenValid | services/appointmentService.ts:193-261 | nothing is posted unless the local checks pass and the server accepts the request and every posted instance |
| AppointmentService.AllErrorsEmpty | services/appointmentService.ts:226-243 | the flattened error list is empty exactly when every instance is accepted |
| AppointmentService.RecurrenceInfoUnchanged | services/appointmentService.ts:245-255 | adding the recurrence information again leaves generated instances unchanged (totalInstances stays 52) |
| AppointmentService.ExpandShape | services/appointmentService.ts:407-418 | every generated appointment carries a recurrence block |
| AppointmentService.SinglePost | services/appointmentService.ts:206-213 | a non-recurring request is rejected or posted to `/api/v2/<slug>/appointments` with its normalised times and a `none` recurrence |
| AppointmentService.RecurringPost | services/appointmentService.ts:215-261 | a recurring request with a parseable date is rejected, or posts to `.../appointments/recurring` the instances of 1 to 52 strictly increasing admissible dates and the original rule |
| AppointmentService.UnparsableSeries | services/appointmentService.ts:215-224 | with an unparsable date the series is empty (recurring_generation_failed) when there is an end date, and crashes otherwise |
| AppointmentService.AppointmentRequest.CreateAppointment | services/appointmentService.ts:139-272 | the outcome is `CreateOutcome`, and the request object ends with the times the checks wrote to it |
| AppointmentForm.LeadingDigits | components/appointments/NewAppointmentModal.tsx:128-129 | parseInt's digit run is the longest prefix of digits |
| AppointmentForm.ParseIntDigits | components/appointments/NewAppointmentModal.tsx:128-129 | parseInt reads a digit run followed by a non-digit as its value |
| AppointmentForm.ParseIntToString | components/appointments/NewAppointmentModal.tsx:133-134 | parseInt of a rendered integer is that integer |
| AppointmentForm.ParseIntLetter | components/appointments/NewAppointmentModal.tsx:133-134 | parseInt of text starting with a letter is NaN |
| AppointmentForm.ClockArithmetic | components/appointments/NewAppointmentModal.tsx:127-130 | setHours then setMinutes leave the clock at start plus duration modulo a day, whatever the Date started at |
| AppointmentForm.EndTime | components/appointments/NewAppointmentModal.tsx:123-130 | the end time is start plus duration modulo a day, as "HH:MM:00", or "NaN:NaN:00" |
| AppointmentForm.HandleSubmit | components/appointments/NewAppointmentModal.tsx:119-155 | the submitted payload is `Payload` of the form |
| AppointmentForm.PayloadRecurrenceShape | components/appointments/NewAppointmentModal.tsx:141-151 | the payload recurs exactly when the type is not none; a weekday list is sent exactly for weekly rules |
| AppointmentForm.PayloadTimes | components/appointments/NewAppointmentModal.tsx:123-130 | the start normalises to the form time, and the end to start plus duration modulo a day |
| AppointmentForm.SubmittedRangeCheck | components/appointments/NewAppointmentModal.tsx:123-139 | a submitted appointment passes the service's range check exactly when it does not cross midnight |
| AppointmentForm.ClockOfCanonical | components/appointments/NewAppointmentModal.tsx:130 | the rendered end clock is canonical and holds the computed minute |
| AppointmentForm.RecurrenceTypeChangeEffect | components/appointments/NewAppointmentModal.tsx:157-167 | the type is set, the weekday list is cleared exactly when the type is weekly, nothing else changes, and repeating it changes nothing more |
| AppointmentForm.WeeklyWithoutDaysMatchesNothing | components/appointments/NewAppointmentModal.tsx:157-167 | choosing weekly without picking a day sends an empty list, which rejects every date |
| AppointmentForm.RemoveAllSpec | components/appointments/NewAppointmentModal.tsx:173 | the filter removes every copy of the day and keeps every other entry with its multiplicity |
| AppointmentForm.ToggleDayEffect | components/appointments/NewAppointmentModal.tsx:169-184 | after a toggle the day is listed exactly when it was not; other days are unchanged |
| AppointmentForm.ToggleDayTwice | components/appointments/NewAppointmentModal.tsx:169-184 | toggling an absent day twice restores the list; a listed day moves to the end |
| AppointmentForm.DayOfWeekToggleFrame | components/appointments/NewAppointmentModal.tsx:176-182 | the toggle touches nothing but the weekday list |
| Middleware.PassesExactly | middleware.ts:4-49 | a request passes exactly when it is public, or a login page without a session, or has a session and names no clinic or the session's |
| Middleware.RootRedirects | middleware.ts:20-25 | the root always redirects, to the dashboard or to the login page |
| Middleware.RedirectTargets | middleware.ts:20-46 | with a session every redirect goes to its dashboard; without one, to a login page |
| Middleware.ClinicSegment | middleware.ts:8-9 | the third segment of "/c/<slug>/..." is the slug |
| Middleware.NoRedirectLoop | middleware.ts:4-49 | when the clinic cookie is a URL-safe segment (unreserved characters only, not "." or ".."), the target of every redirect passes |
| Middleware.SlashInClinicCookieLoops | middleware.ts:8-46 | a clinic cookie holding a slash makes the dashboard redirect to itself |
| Middleware.DotCookieLoops | middleware.ts:20-46 | with clinic cookie "." the root redirects to "/c/./dashboard", and "/c/dashboard", the path that target resolves to, redirects to it again |
| ApiRoutes.ClinicPathShape | config/api.routes.ts:7 | a clinic path is "/api/v2/<slug>" followed by the path |
| ApiRoutes.AppointmentPathsNest | config/api.routes.ts:21-31 | LIST equals CREATE, DETAIL extends it with the id, and the actions extend DETAIL |
| ApiRoutes.ServiceEndpointsAgree | config/api.routes.ts:22-25 | CREATE and RECURRING are the paths the service posts to |
| ApiRoutes.DetailIdRoundTrip | config/api.routes.ts:23 | the id reads back from a detail path |
| ApiRoutes.DetailInjective | config/api.routes.ts:23 | distinct ids give distinct detail paths |
| ApiRoutes.ApiPathsArePublic | config/api.routes.ts:6 | every builder path starts with "/api", a public prefix of the route guard |
| Units.SubmitNewAppends | components/configuracoes/UnidadesTab.tsx:42-55 | adding appends one active unit numbered one past the old length |
| Units.SubmitEditReplaces | components/configuracoes/UnidadesTab.tsx:42-52 | editing replaces the units with the edited id by the active submitted unit, keeping length and the others |
| Units.RemoveByIdOrder | components/configuracoes/UnidadesTab.tsx:68 | filtering a concatenation filters each part in turn, and one unit is kept exactly when its id differs, so the kept units stay in their order |
| Units.RemoveByIdMembers | components/configuracoes/UnidadesTab.tsx:68 | the filter keeps exactly the units with another id |
| Units.RemoveByIdCounts | components/configuracoes/UnidadesTab.tsx:68 | kept units keep their number of copies; the removed id has none |
| Units.RemoveByIdAbsent | components/configuracoes/UnidadesTab.tsx:68 | deleting an absent id changes nothing |
| Units.DeleteEffect | components/configuracoes/UnidadesTab.tsx:66-70 | delete removes exactly that id when confirmed, and nothing otherwise |
| Units.NewIdCanRepeatAfterDelete | components/configuracoes/UnidadesTab.tsx:42-68 | after a delete, a new unit can get the id of a live one, and one delete then removes both |
| Units.UnitsTab.HandleSubmit | components/configuracoes/UnidadesTab.tsx:37-59 | the list becomes `AfterSubmit`, the form closes, editing ends |
| Units.UnitsTab.HandleDelete | components/configuracoes/UnidadesTab.tsx:66-70 | the list becomes `AfterDelete`; nothing else changes |
| Units.UnitsTab.HandleEdit | components/configuracoes/UnidadesTab.tsx:61-64 | the form opens on the unit; the list is unchanged |
| Notifications.ToggleSettingEffect | components/configuracoes/NotificacoesTab.tsx:44-48 | length, order and texts stay; a switch flips exactly when its id is toggled |
| Notifications.ToggleTwice | components/configuracoes/NotificacoesTab.tsx:44-48 | toggling twice restores the settings |
| Notifications.ToggleUnknown | components/configuracoes/NotificacoesTab.tsx:44-48 | an unknown id changes nothing |
| Notifications.ToggleCommutes | components/configuracoes/NotificacoesTab.tsx:44-48 | toggles of two ids commute |
| Notifications.TogglePushInitially | components/configuracoes/NotificacoesTab.tsx:13-48 | on the initial list, toggling "push" turns on that channel alone |
| Summary.Summarize | components/appointments/AppointmentsSummary.tsx:13-29 | the loop computes the status dictionary and the today count |
| Summary.StatusCountsExactly | components/appointments/AppointmentsSummary.tsx:19 | a status is a key exactly when some appointment has it, and its value is that number of appointments |
| Summary.StatusesAreKeys | components/appointments/AppointmentsSummary.tsx:19 | the keys in first-appearance order are distinct and are the dictionary's keys |
| Summary.CountsSumToTotal | components/appointments/AppointmentsSummary.tsx:13-29 | the counts add up to the number of appointments |
| Summary.TodayAtMostAll | components/appointments/AppointmentsSummary.tsx:22-24 | the today count is at most the number of appointments |
| Summary.InvalidDatesNotToday | components/appointments/AppointmentsSummary.tsx:15-24 | appointments whose start is no valid date never count as today's |

## Behaviour of the code worth knowing

In each case below the model follows the code, including where the code's
comments or the documented intent suggest otherwise. A lemma witnesses each
one.

- **Monthly clamp after rollover.** The monthly step clamps the day of the
  month only after `setMonth` has rolled over. So monthly from January 31 goes
  to March 31, skipping February, and from March 31 it goes to May 31
  (`RecurrenceExamples.MonthlyFromJanuary31`, `MonthlyFromMarch31`).
- **Weekly steps follow list order.** A weekly rule takes the first later day
  in list order, not the nearest one. With an unsorted list it skips listed
  days (`RecurrenceExamples.WeeklyFollowsListOrder`).
- **Empty weekday list.** Choosing "weekly" clears the list, and with an empty
  list every date is rejected (`AppointmentForm.WeeklyWithoutDaysMatchesNothing`).
  With an end date the series is then empty, so the request fails with
  `recurring_generation_failed`. Without one the loop of the source never ends.
- **Today is rejected.** The date test compares local midnight with the
  current instant. So today's date is rejected as past
  (`Recurrence.TodayRejectedAfterMidnight`).
- **Invalid times report `invalid_format`.** Every invalid time is reported as
  `invalid_format` (`TimeFormat.Normalize`). The `invalid_time_format` branch
  of `createAppointment` cannot be reached, because the normaliser always
  throws an `Error`.
- **totalInstances stays 52.** Generated instances already carry sequence and
  total, so the recurrence-information step changes nothing. `totalInstances`
  stays 52 whatever the series length (`AppointmentService.RecurrenceInfoUnchanged`).
- **Unparsable date.** An unparsable date skips the start/end comparison,
  since every comparison with an Invalid Date is false
  (`AppointmentService.UnparsableDateSkipsRangeCheck`).
- **Midnight-crossing appointments.** The form computes the end time modulo a
  day. An appointment crossing midnight therefore ends "before" it starts and
  is rejected by the range check (`AppointmentForm.SubmittedRangeCheck`).
- **Start time written early.** The start time is written back to the request
  before the end time is checked (`AppointmentService.StartWrittenBeforeEndFails`).
- **Unusual clinic cookies loop.** A clinic cookie holding a slash sends the
  dashboard into a redirect to itself (`Middleware.SlashInClinicCookieLoops`).
  The redirect target is resolved as a URL, which removes dot segments and
  cuts the path at `?` or `#`. So the cookie "." loops as well: the root goes
  to "/c/./dashboard", the browser asks for "/c/dashboard", and that redirects
  to the same target again (`Middleware.DotCookieLoops`). Cookies such as
  "a#b" or "a?b" behave alike. With a cookie of unreserved characters that is
  not a dot segment, no redirect loops (`Middleware.NoRedirectLoop`).
- **Repeated unit ids.** New units are numbered by the list length. After a
  delete, a new unit can take a live unit's id
  (`Units.NewIdCanRepeatAfterDelete`).

## Left out

- Time zones: one zone-free calendar stands for the browser's local time and for UTC, so `toISOString` never shifts a date by a day.
- The range of JavaScript Date (plus or minus 8.64e15 ms) and the two-digit-year quirk of `new Date(y, m, d)`: integers are unbounded.
- Date strings other than strict `YYYY-MM-DD` (such as "2024-01" or ones with a time) are treated as Invalid Date.
- Datetime strings in `normalizeTimeFormat` (the hyphen branch): the Date parser is a parameter.
- The server: `validateAppointmentTime` is an oracle, and the POST responses and network errors are not modelled.
- Recurrence.Expand: inputs on which the source loop may not end are excluded by `GenerationTerminates`, and `createAppointment` reports them as `Unmodelled`. These are a weekday outside 0-6, an interval below 1 after `|| 1`, or, with no end date, an empty weekday list or an unparsable seed. Some of them do end in the source and return a series that the model does not describe. Examples are a weekday above 6 with an end date, where every step moves a week forward, and a negative daily interval from a seed 51 or more days ahead, which still emits 52 dates. The form only offers intervals from 1 and weekdays 0-6.
- ApiRoutes: the builder paths are requested from the API server's origin (services/api.ts is not part of this model), so the route guard never sees them. `ApiPathsArePublic` only records their public prefix.
- Middleware: a redirect target is taken as the next request's pathname as written, without resolving it as a URL (dot-segment removal, the cut at `?` or `#`, percent-encoding). `NoRedirectLoop` therefore requires a URL-safe clinic cookie, for which resolution changes nothing. The request path is taken as an already resolved pathname.
- The `occurrences` and `dayOfMonth` fields of the recurrence block, and the form's `room` field, which the payload does not use.
- AppointmentForm.ParseInt: the `0x` hexadecimal prefix is not modelled, because the form's inputs are decimal.
- The seconds and milliseconds of the form's `new Date()`: only the minute of the day matters.
- The middleware's `matcher` configuration and its logging.
- DOCTORS, PATIENTS, AUTH, CLINICS.BASE and CLINICS.VALIDATE routes: outside the appointment routes.
- Console logging, `confirm` dialogs (a boolean parameter) and rendering in every component.
- Summary.Summarize: `dayOf` stands for `new Date(start_time)` set to local midnight; the Date parsing itself is not modelled.
