/** The API path builders: every path sits under "/api/v2", and a clinic's
    paths under "/api/v2/<clinic slug>". */
module ApiRoutes {
  import opened Base
  import AppointmentService
  import AppointmentForm
  import Middleware

  const ApiVersion: string := "v2"
  const BasePath: string := "/api/" + ApiVersion

  /** buildPath. */
  function BuildPath(path: string): (r: string)
    ensures |r| == |BasePath| + |path| && r[..|BasePath|] == BasePath && r[|BasePath|..] == path
  {
    BasePath + path
  }

  /** buildClinicPath. */
  function BuildClinicPath(clinicSlug: string, path: string): string {
    BuildPath("/" + clinicSlug + path)
  }

  /** A clinic path is the base path, a slash, the slug and the path. */
  lemma ClinicPathShape(clinicSlug: string, path: string)
    ensures BuildClinicPath(clinicSlug, path) == "/api/v2/" + clinicSlug + path
  {
    assert BasePath == "/api/v2";
  }

  // ----- API_ROUTES.CLINICS.APPOINTMENTS -----

  function List(clinicSlug: string): string {
    BuildClinicPath(clinicSlug, "/appointments")
  }

  function Create(clinicSlug: string): string {
    BuildClinicPath(clinicSlug, "/appointments")
  }

  /** `${id}` of a numeric id. */
  function Detail(clinicSlug: string, id: int): string {
    BuildClinicPath(clinicSlug, "/appointments/" + IntToString(id))
  }

  function ValidateTime(clinicSlug: string): string {
    BuildClinicPath(clinicSlug, "/appointments/validate-time")
  }

  function Recurring(clinicSlug: string): string {
    BuildClinicPath(clinicSlug, "/appointments/recurring")
  }

  function ByDoctor(clinicSlug: string, doctorId: int): string {
    BuildClinicPath(clinicSlug, "/appointments/doctor/" + IntToString(doctorId))
  }

  function ByPatient(clinicSlug: string, patientId: int): string {
    BuildClinicPath(clinicSlug, "/appointments/patient/" + IntToString(patientId))
  }

  function Confirm(clinicSlug: string, id: int): string {
    BuildClinicPath(clinicSlug, "/appointments/" + IntToString(id) + "/confirm")
  }

  function Cancel(clinicSlug: string, id: int): string {
    BuildClinicPath(clinicSlug, "/appointments/" + IntToString(id) + "/cancel")
  }

  function Complete(clinicSlug: string, id: int): string {
    BuildClinicPath(clinicSlug, "/appointments/" + IntToString(id) + "/complete")
  }

  /** LIST and CREATE are one path; DETAIL extends it with the id, and the
      three actions extend DETAIL. */
  lemma AppointmentPathsNest(clinicSlug: string, id: int)
    ensures List(clinicSlug) == Create(clinicSlug)
    ensures Detail(clinicSlug, id) == List(clinicSlug) + "/" + IntToString(id)
    ensures Confirm(clinicSlug, id) == Detail(clinicSlug, id) + "/confirm"
    ensures Cancel(clinicSlug, id) == Detail(clinicSlug, id) + "/cancel"
    ensures Complete(clinicSlug, id) == Detail(clinicSlug, id) + "/complete"
  {
    hide IntToString;
    var slug := "/" + clinicSlug;
    var id_ := IntToString(id);
    assert slug + ("/appointments/" + id_) == slug + "/appointments" + "/" + id_;
    assert slug + ("/appointments/" + id_ + "/confirm") == slug + ("/appointments/" + id_) + "/confirm";
    assert slug + ("/appointments/" + id_ + "/cancel") == slug + ("/appointments/" + id_) + "/cancel";
    assert slug + ("/appointments/" + id_ + "/complete") == slug + ("/appointments/" + id_) + "/complete";
  }

  /** The service's hard-coded endpoints are the ones the builders produce:
      the single and recurring POST paths and the validate-time path. */
  lemma ServiceEndpointsAgree(clinicSlug: string)
    ensures Create(clinicSlug) == AppointmentService.SinglePath(clinicSlug)
    ensures Recurring(clinicSlug) == AppointmentService.RecurringPath(clinicSlug)
    ensures ValidateTime(clinicSlug) == "/api/v2/" + clinicSlug + "/appointments/validate-time"
  {
    ClinicPathShape(clinicSlug, "/appointments");
    ClinicPathShape(clinicSlug, "/appointments/recurring");
    ClinicPathShape(clinicSlug, "/appointments/validate-time");
  }

  /** The id can be read back from a detail path: what follows the list path
      and its slash is the id's decimal rendering, which parseInt reads as
      the id. So distinct ids give distinct detail paths. */
  lemma DetailIdRoundTrip(clinicSlug: string, id: int)
    ensures var p := Detail(clinicSlug, id);
      var n := |List(clinicSlug)| + 1;
      n <= |p| && p[..n] == List(clinicSlug) + "/" && AppointmentForm.ParseInt(p[n..]) == Num(id)
  {
    hide IntToString;
    AppointmentPathsNest(clinicSlug, id);
    var p := Detail(clinicSlug, id);
    var n := |List(clinicSlug)| + 1;
    assert p[n..] == IntToString(id);
    AppointmentForm.ParseIntToString(id);
  }

  lemma DetailInjective(clinicSlug: string, i: int, j: int)
    requires Detail(clinicSlug, i) == Detail(clinicSlug, j)
    ensures i == j
  {
    DetailIdRoundTrip(clinicSlug, i);
    DetailIdRoundTrip(clinicSlug, j);
  }

  /** Every API path starts with "/api", a public prefix of the route guard,
      which would let it through whatever the cookies. The application sends
      these paths to the API server's own origin, so the guard does not see
      them in practice. */
  lemma ApiPathsArePublic(path: string, token: Option<string>, clinicSlug: Option<string>)
    ensures Middleware.IsPublic(BuildPath(path))
    ensures Middleware.Decide(BuildPath(path), token, clinicSlug) == Middleware.Next
  {
    var p := BuildPath(path);
    assert p[..4] == BasePath[..4] == "/api";
  }
}
