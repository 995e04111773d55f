/** The route guard run before every page: from the request path and the
    `token` and `clinicSlug` cookies it either lets the request through or
    redirects it. */
module Middleware {
  import opened Base

  /** NextResponse.next() or NextResponse.redirect(path). */
  datatype Response = Next | Redirect(path: string)

  predicate StartsWith(s: string, prefix: string) {
    |prefix| <= |s| && s[..|prefix|] == prefix
  }

  predicate EndsWith(s: string, suffix: string) {
    |suffix| <= |s| && s[|s| - |suffix|..] == suffix
  }

  /** The path starts with one of the public prefixes. */
  predicate IsPublic(path: string) {
    StartsWith(path, "/_next") || StartsWith(path, "/api") || StartsWith(path, "/favicon.ico")
    || StartsWith(path, "/images") || StartsWith(path, "/login") || StartsWith(path, "/c/login")
  }

  /** A cookie that is set to a non-empty value (a truthy `?.value`). */
  predicate Present(cookie: Option<string>) {
    cookie.Some? && cookie.value != ""
  }

  /** Both session cookies are present. */
  predicate LoggedIn(token: Option<string>, clinicSlug: Option<string>) {
    Present(token) && Present(clinicSlug)
  }

  /** `pathname.split('/')[2]`, with the empty string for a missing segment
      (both are falsy, and the guard only compares a truthy segment). */
  function UrlClinicSlug(path: string): string {
    var segments := Split(path, '/');
    if |segments| > 2 then segments[2] else ""
  }

  function Dashboard(clinicSlug: string): string {
    "/c/" + clinicSlug + "/dashboard"
  }

  function ClinicLogin(clinicSlug: string): string {
    "/c/" + clinicSlug + "/login"
  }

  /** The middleware's decision. */
  function Decide(path: string, token: Option<string>, clinicSlug: Option<string>): Response {
    if IsPublic(path) then Next
    else if path == "/" then
      if LoggedIn(token, clinicSlug) then Redirect(Dashboard(clinicSlug.value)) else Redirect("/login")
    else if EndsWith(path, "/login") then
      if LoggedIn(token, clinicSlug) then Redirect(Dashboard(clinicSlug.value)) else Next
    else if !LoggedIn(token, clinicSlug) then
      var segment := UrlClinicSlug(path);
      Redirect(if segment != "" then ClinicLogin(segment) else "/login")
    else if UrlClinicSlug(path) != "" && UrlClinicSlug(path) != clinicSlug.value then Redirect(Dashboard(clinicSlug.value))
    else Next
  }

  /** A request passes exactly when its path is public, or it is a login page
      and there is no session, or there is a session and the path names no
      clinic or the session's clinic. */
  lemma PassesExactly(path: string, token: Option<string>, clinicSlug: Option<string>)
    ensures Decide(path, token, clinicSlug) == Next <==>
      IsPublic(path)
      || (path != "/" && EndsWith(path, "/login") && !LoggedIn(token, clinicSlug))
      || (path != "/" && !EndsWith(path, "/login") && LoggedIn(token, clinicSlug)
          && (UrlClinicSlug(path) == "" || UrlClinicSlug(path) == clinicSlug.value))
  {
  }

  /** The root path is not public and does not end in "/login": it always
      redirects, to the session's dashboard or to the login page. */
  lemma RootRedirects(token: Option<string>, clinicSlug: Option<string>)
    ensures Decide("/", token, clinicSlug)
      == if LoggedIn(token, clinicSlug) then Redirect(Dashboard(clinicSlug.value)) else Redirect("/login")
  {
    assert !StartsWith("/", "/api") && !StartsWith("/", "/login");
  }

  /** Every redirect goes to the session's dashboard (with a session), or to
      the login page or a clinic's login page (without one). */
  lemma RedirectTargets(path: string, token: Option<string>, clinicSlug: Option<string>)
    ensures var r := Decide(path, token, clinicSlug);
      r.Redirect? ==>
        if LoggedIn(token, clinicSlug) then r.path == Dashboard(clinicSlug.value)
        else r.path == "/login" || (UrlClinicSlug(path) != "" && r.path == ClinicLogin(UrlClinicSlug(path)))
  {
  }

  /** Splitting at a separator that the first part lacks peels that part off. */
  lemma SplitAt(a: string, b: string, sep: char)
    requires sep !in a
    ensures Split(a + [sep] + b, sep) == [a] + Split(b, sep)
  {
    var s := a + [sep] + b;
    assert s[|a|] == sep && s[..|a|] == a;
    assert IndexOf(s, sep) == |a|;
    assert s[|a| + 1..] == b;
  }

  /** The third segment of "/c/<slug>/<rest>" is the slug when it has no slash. */
  lemma ClinicSegment(slug: string, rest: string)
    requires '/' !in slug
    ensures UrlClinicSlug("/c/" + slug + "/" + rest) == slug
  {
    hide Split, IndexOf;
    var tail := slug + ['/'] + rest;
    var mid := "c" + ['/'] + tail;
    var p := [] + ['/'] + mid;
    assert p == "/c/" + slug + "/" + rest;
    SplitAt(slug, rest, '/');
    SplitAt("c", tail, '/');
    SplitAt([], mid, '/');
    assert Split(p, '/') == [[], "c", slug] + Split(rest, '/');
  }

  /** A dashboard path is never a login page. */
  lemma DashboardNotLogin(slug: string)
    ensures !EndsWith(Dashboard(slug), "/login") && Dashboard(slug) != "/"
  {
    var p := Dashboard(slug);
    assert p[|p| - 1] == 'd';
  }

  /** A clinic login path ends in "/login" and is not the root. */
  lemma ClinicLoginIsLogin(slug: string)
    ensures EndsWith(ClinicLogin(slug), "/login") && ClinicLogin(slug) != "/"
  {
    var p := ClinicLogin(slug);
    assert p[|p| - 6..] == "/login";
  }

  /** An unreserved URL character (letters, digits, `-`, `_`, `.`, `~`):
      `new URL` neither encodes it nor reads it as a separator. */
  predicate IsUnreserved(c: char) {
    ('a' <= c <= 'z') || ('A' <= c <= 'Z') || ('0' <= c <= '9') || c == '-' || c == '_' || c == '.' || c == '~'
  }

  /** A cookie value that `new URL(…, request.url)` keeps as one path segment,
      unchanged: unreserved characters only, and not a dot segment. */
  predicate UrlSafeSegment(s: string) {
    s != "." && s != ".." && forall i :: 0 <= i < |s| ==> IsUnreserved(s[i])
  }

  /** No redirect loop: with the same cookies, the target of every redirect
      is let through, provided the clinic cookie is a URL-safe segment, so
      that resolving the target as a URL leaves its path as written. The
      path itself is an already resolved pathname, whose segments the
      clinic login target keeps. */
  lemma NoRedirectLoop(path: string, token: Option<string>, clinicSlug: Option<string>)
    requires clinicSlug.Some? ==> UrlSafeSegment(clinicSlug.value)
    ensures var r := Decide(path, token, clinicSlug);
      r.Redirect? ==> Decide(r.path, token, clinicSlug) == Next
  {
    var r := Decide(path, token, clinicSlug);
    if r.Redirect? {
      RedirectTargets(path, token, clinicSlug);
      if LoggedIn(token, clinicSlug) {
        var slug := clinicSlug.value;
        assert '/' !in slug by {
          forall i | 0 <= i < |slug| ensures slug[i] != '/' {
            assert IsUnreserved(slug[i]);
          }
        }
        DashboardNotLogin(slug);
        assert Dashboard(slug) == "/c/" + slug + "/" + "dashboard";
        ClinicSegment(slug, "dashboard");
      } else if r.path == "/login" {
        assert StartsWith("/login", "/login");
      } else {
        ClinicLoginIsLogin(UrlClinicSlug(path));
      }
    }
  }

  /** A path under "/c/" is public exactly when it continues with "login". */
  lemma ClinicPathPublic(rest: string)
    ensures IsPublic("/c/" + rest) <==> StartsWith(rest, "login")
  {
    var p := "/c/" + rest;
    assert p[1] == 'c';
    assert "/_next"[1] != 'c' && "/api"[1] != 'c' && "/favicon.ico"[1] != 'c' && "/images"[1] != 'c' && "/login"[1] != 'c';
    if |rest| >= 5 {
      assert p[..8] == "/c/" + rest[..5];
      assert p[..8][3..] == rest[..5];
      assert "/c/login"[3..] == "login";
    }
  }

  /** A slug that holds a slash starts with "login" only if the part before
      the slash is "login" or starts with it. */
  lemma SlugPrefix(a: string, b: string)
    requires !StartsWith(a, "login")
    ensures !StartsWith(a + "/" + b, "login")
  {
    var slug := a + "/" + b;
    if |a| >= 5 {
      assert slug[..5] == a[..5];
    } else {
      assert slug[|a|] == '/';
      assert "login"[|a|] != '/' by { assert |a| == 0 || |a| == 1 || |a| == 2 || |a| == 3 || |a| == 4; }
    }
  }

  /** A clinic cookie holding a slash makes the dashboard redirect to
      itself: its third segment is only the part before the slash. When both
      parts are URL-safe segments, resolving the target as a URL leaves it as
      written, so the browser requests the same dashboard again and again. */
  lemma SlashInClinicCookieLoops(a: string, b: string, token: Option<string>)
    requires a != "" && '/' !in a && Present(token)
    requires !StartsWith(a, "login")
    ensures var slug := a + "/" + b;
      Decide(Dashboard(slug), token, Some(slug)) == Redirect(Dashboard(slug))
  {
    hide Split, IndexOf, IsPublic;
    var slug := a + "/" + b;
    var p := Dashboard(slug);
    assert p == "/c/" + a + "/" + (b + "/dashboard");
    ClinicSegment(a, b + "/dashboard");
    assert a != slug by { assert |slug| > |a|; }
    DashboardNotLogin(slug);
    SlugPrefix(a, b + "/dashboard");
    assert p == "/c/" + (a + "/" + (b + "/dashboard"));
    ClinicPathPublic(a + "/" + (b + "/dashboard"));
  }

  /** "/c/dashboard" is neither public nor a login page. */
  lemma BareDashboardNotPublic()
    ensures !IsPublic("/c/dashboard") && !EndsWith("/c/dashboard", "/login") && "/c/dashboard" != "/"
  {
    var p := "/c/dashboard";
    assert p == "/c/" + "dashboard";
    ClinicPathPublic("dashboard");
    assert !StartsWith("dashboard", "login") by { assert "dashboard"[0] != "login"[0]; }
    assert p[|p| - 1] == 'd';
  }

  /** The third segment of "/c/<slug>" is the slug when it has no slash. */
  lemma ClinicSegmentLast(slug: string)
    requires '/' !in slug
    ensures UrlClinicSlug("/c/" + slug) == slug
  {
    assert Split(slug, '/') == [slug];
    hide Split, IndexOf;
    var mid := "c" + ['/'] + slug;
    var p := [] + ['/'] + mid;
    assert p == "/c/" + slug;
    SplitAt("c", slug, '/');
    SplitAt([], mid, '/');
    assert Split(p, '/') == [[], "c", slug];
  }

  /** The third segment of "/c/dashboard" is "dashboard". */
  lemma BareDashboardSegment()
    ensures UrlClinicSlug("/c/dashboard") == "dashboard"
  {
    hide Split, IndexOf;
    ClinicSegmentLast("dashboard");
    assert "/c/" + "dashboard" == "/c/dashboard";
  }

  /** With a session for clinic ".", the bare dashboard path redirects to
      the session's dashboard. */
  lemma DotCookieAgain(token: Option<string>)
    requires Present(token)
    ensures Decide("/c/dashboard", token, Some(".")) == Redirect(Dashboard("."))
  {
    BareDashboardNotPublic();
    BareDashboardSegment();
    hide IsPublic, EndsWith, UrlClinicSlug, Split, IndexOf, StartsWith, Dashboard;
    assert LoggedIn(token, Some("."));
    assert "dashboard" != ".";
  }

  /** The dot cookie loops once the target is resolved as a URL. With clinic
      cookie "." the root redirects to "/c/./dashboard"; `new URL` removes
      the dot segment, so the next request is for "/c/dashboard", whose third
      segment "dashboard" is not the cookie, and it redirects to the same
      target again. */
  lemma DotCookieLoops(token: Option<string>)
    requires Present(token)
    ensures Dashboard(".") == "/c/./dashboard"
    ensures Decide("/", token, Some(".")) == Redirect(Dashboard("."))
    ensures Decide("/c/dashboard", token, Some(".")) == Redirect(Dashboard("."))
  {
    assert Dashboard(".") == "/c/./dashboard";
    RootRedirects(token, Some("."));
    DotCookieAgain(token);
  }
}
