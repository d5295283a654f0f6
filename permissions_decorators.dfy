/** The view decorators `require_permission`, `require_any_permission` and
    `require_all_permissions`. Each is wrapped in `login_required`, so an
    unauthenticated request is sent to the login page before any codename is
    looked at. A refused request gets a 403 whose message names the codes only
    for API-style requests. */
module PermissionDecorators {
  import opened Common
  import opened PermissionModels
  import opened PermissionMixins

  datatype Outcome = LoginRedirect | RunView | Refused(message: string)

  /** The request as the decorators see it. */
  datatype Request = Request(authenticated: bool, user: UserId, contentType: string, path: string)

  /** `request.content_type == 'application/json' or request.path.startswith('/api/')` */
  predicate IsApiRequest(r: Request) {
    r.contentType == "application/json" || StartsWith(r.path, "/api/")
  }

  const GenericDenial: string := "Permission denied"

  /** The openings of the three decorators' API messages. */
  const SingleHead: string := "Permission denied. Required: "
  const AnyHead: string := "Permission denied. Required one of: "
  const AllHead: string := "Permission denied. Required all of: "

  /** The 403 message: `head` and the code listing, shown only to API
      requests; every other request gets the generic message. */
  function DenialMessage(r: Request, head: string, listing: string): (m: string)
    requires |head| > |GenericDenial|
    ensures m == GenericDenial <==> !IsApiRequest(r)
  {
    if IsApiRequest(r) then head + listing else GenericDenial
  }

  /** What each decorator does once it knows whether the user holds what it
      asks for: `login_required` first, then the 403. */
  function Gate(r: Request, holds: bool, head: string, listing: string): Outcome
    requires |head| > |GenericDenial|
  {
    if !r.authenticated then LoginRedirect
    else if !holds then Refused(DenialMessage(r, head, listing))
    else RunView
  }

  /** `@require_permission(code)` */
  function RequirePermission(db: Db, r: Request, code: string): Outcome {
    Gate(r, HasPermission(db, r.user, code), SingleHead, code)
  }

  /** `@require_any_permission(*codes)` */
  function RequireAnyPermission(db: Db, r: Request, codes: seq<string>): Outcome {
    Gate(r, AnyHolds(db, r.user, codes), AnyHead, Join(", ", codes))
  }

  /** `@require_all_permissions(*codes)` */
  function RequireAllPermissions(db: Db, r: Request, codes: seq<string>): Outcome {
    Gate(r, AllHold(db, r.user, codes), AllHead, Join(", ", codes))
  }

  /** `require_permission` runs the view exactly when the resolver says yes. */
  lemma RequirePermissionRunsIff(db: Db, r: Request, code: string)
    ensures RequirePermission(db, r, code) == RunView <==> r.authenticated && HasPermission(db, r.user, code)
    ensures !r.authenticated ==> RequirePermission(db, r, code) == LoginRedirect
  {
  }

  /** `require_any_permission` runs the view exactly when some code holds; with
      no codes it never does. */
  lemma RequireAnyRunsIff(db: Db, r: Request, codes: seq<string>)
    ensures RequireAnyPermission(db, r, codes) == RunView <==>
      r.authenticated && exists i :: 0 <= i < |codes| && HasPermission(db, r.user, codes[i])
    ensures r.authenticated && codes == [] ==> RequireAnyPermission(db, r, codes).Refused?
  {
  }

  /** `require_all_permissions` runs the view exactly when every code holds;
      with no codes it always does. */
  lemma RequireAllRunsIff(db: Db, r: Request, codes: seq<string>)
    ensures RequireAllPermissions(db, r, codes) == RunView <==>
      r.authenticated && forall i :: 0 <= i < |codes| ==> HasPermission(db, r.user, codes[i])
    ensures r.authenticated && codes == [] ==> RequireAllPermissions(db, r, codes) == RunView
  {
  }

  /** For a non-empty list, what `require_all` admits `require_any` admits. */
  lemma AllAdmitsImpliesAnyAdmits(db: Db, r: Request, codes: seq<string>)
    requires codes != []
    requires RequireAllPermissions(db, r, codes) == RunView
    ensures RequireAnyPermission(db, r, codes) == RunView
  {
    assert HasPermission(db, r.user, codes[0]);
  }

  /** With one code, the three decorators admit the same requests. */
  lemma SingleCodeDecoratorsAgree(db: Db, r: Request, code: string)
    ensures (RequirePermission(db, r, code) == RunView) == (RequireAnyPermission(db, r, [code]) == RunView)
    ensures (RequirePermission(db, r, code) == RunView) == (RequireAllPermissions(db, r, [code]) == RunView)
  {
    if r.authenticated && HasPermission(db, r.user, code) {
      assert AnyHolds(db, r.user, [code]) by {
        assert [code][0] == code;
      }
    }
  }

  /** A refusal names the required codes exactly for API requests, in each
      decorator's own words; otherwise the message is the generic one. */
  lemma DenialNamesCodesIffApi(db: Db, r: Request, code: string, codes: seq<string>)
    ensures RequirePermission(db, r, code).Refused? ==>
      (RequirePermission(db, r, code).message == GenericDenial <==> !IsApiRequest(r))
      && (IsApiRequest(r) ==> RequirePermission(db, r, code).message == "Permission denied. Required: " + code)
    ensures RequireAnyPermission(db, r, codes).Refused? ==>
      (RequireAnyPermission(db, r, codes).message == GenericDenial <==> !IsApiRequest(r))
      && (IsApiRequest(r) ==>
            RequireAnyPermission(db, r, codes).message == "Permission denied. Required one of: " + Join(", ", codes))
    ensures RequireAllPermissions(db, r, codes).Refused? ==>
      (RequireAllPermissions(db, r, codes).message == GenericDenial <==> !IsApiRequest(r))
      && (IsApiRequest(r) ==>
            RequireAllPermissions(db, r, codes).message == "Permission denied. Required all of: " + Join(", ", codes))
  {
  }
}
