/** The permission gates views attach to themselves: a DRF permission class
    naming one codename, one that derives the codename from the HTTP method, a
    Django view mixin with single/all/any requirements, and a viewset mixin that
    derives the codename from the viewset action. Each gate is a decision over
    a database snapshot and the request; "authenticated" is an input. */
module PermissionMixins {
  import opened Common
  import opened PermissionModels

  /** The four operations `ModuleCRUDPermissionMixin` and
      `DRFPermissionMixin` can ask for; also the default operations of
      `bulk_create_permissions`. */
  const CrudOperations: seq<string> := ["create", "read", "update", "delete"]

  // ---------------------------------------------------------------------
  // HasPermissionMixin

  /** `HasPermissionMixin.has_permission`: `required` is the view's
      `required_permission` attribute (None or "" asks for nothing). */
  predicate HasPermissionGate(db: Db, authenticated: bool, u: UserId, required: Option<string>) {
    if !authenticated then false
    else if !Truthy(required) then true
    else HasPermission(db, u, required.value)
  }

  /** Authenticated requests get the resolver's answer, or a pass when the
      view asks for no codename; unauthenticated requests never pass. */
  lemma HasPermissionGateSpec(db: Db, authenticated: bool, u: UserId, required: Option<string>)
    ensures !authenticated ==> !HasPermissionGate(db, authenticated, u, required)
    ensures authenticated && !Truthy(required) ==> HasPermissionGate(db, authenticated, u, required)
    ensures authenticated && Truthy(required) ==>
      (HasPermissionGate(db, authenticated, u, required) <==> HasPermission(db, u, required.value))
  {
  }

  // ---------------------------------------------------------------------
  // ModuleCRUDPermissionMixin

  /** `method_operation_map.get(request.method)` */
  function MethodOperation(httpMethod: string): (op: Option<string>)
    ensures op.Some? <==> httpMethod in ["GET", "POST", "PUT", "PATCH", "DELETE"]
    ensures op.Some? ==> op.value in CrudOperations
  {
    match httpMethod
    case "GET" => Some("read")
    case "POST" => Some("create")
    case "PUT" => Some("update")
    case "PATCH" => Some("update")
    case "DELETE" => Some("delete")
    case _ => None
  }

  /** `ModuleCRUDPermissionMixin.has_permission` */
  predicate ModuleCrudGate(db: Db, authenticated: bool, u: UserId, moduleName: Option<string>, httpMethod: string) {
    if !authenticated then false
    else if !Truthy(moduleName) then true
    else match MethodOperation(httpMethod)
      case None => false
      case Some(op) => HasPermission(db, u, DefaultCodename(moduleName.value, op))
  }

  /** What the gate decides: no pass without authentication, a pass without a
      module, a refusal for any method outside the map, and otherwise the
      resolver's answer for `<module>.<operation>`. */
  lemma ModuleCrudGateSpec(db: Db, authenticated: bool, u: UserId, moduleName: Option<string>, httpMethod: string)
    ensures !authenticated ==> !ModuleCrudGate(db, authenticated, u, moduleName, httpMethod)
    ensures authenticated && !Truthy(moduleName) ==> ModuleCrudGate(db, authenticated, u, moduleName, httpMethod)
    ensures authenticated && Truthy(moduleName) && httpMethod !in ["GET", "POST", "PUT", "PATCH", "DELETE"] ==>
      !ModuleCrudGate(db, authenticated, u, moduleName, httpMethod)
    ensures authenticated && Truthy(moduleName) && httpMethod == "GET" ==>
      (ModuleCrudGate(db, authenticated, u, moduleName, httpMethod) <==> HasPermission(db, u, moduleName.value + ".read"))
    ensures authenticated && Truthy(moduleName) && httpMethod == "POST" ==>
      (ModuleCrudGate(db, authenticated, u, moduleName, httpMethod) <==> HasPermission(db, u, moduleName.value + ".create"))
    ensures authenticated && Truthy(moduleName) && httpMethod in ["PUT", "PATCH"] ==>
      (ModuleCrudGate(db, authenticated, u, moduleName, httpMethod) <==> HasPermission(db, u, moduleName.value + ".update"))
    ensures authenticated && Truthy(moduleName) && httpMethod == "DELETE" ==>
      (ModuleCrudGate(db, authenticated, u, moduleName, httpMethod) <==> HasPermission(db, u, moduleName.value + ".delete"))
  {
  }

  // ---------------------------------------------------------------------
  // DRFPermissionMixin

  /** `action_permission_map.get(current_action, 'read')` */
  function ActionOperation(action: Option<string>): (op: string)
    ensures op in CrudOperations
    ensures action.Some? && action.value in ["list", "retrieve"] ==> op == "read"
    ensures action == Some("create") ==> op == "create"
    ensures action.Some? && action.value in ["update", "partial_update"] ==> op == "update"
    ensures action == Some("destroy") ==> op == "delete"
    ensures action.None? || action.value !in ["list", "retrieve", "create", "update", "partial_update", "destroy"] ==> op == "read"
  {
    match action
    case None => "read"
    case Some(a) =>
      match a
      case "list" => "read"
      case "retrieve" => "read"
      case "create" => "create"
      case "update" => "update"
      case "partial_update" => "update"
      case "destroy" => "delete"
      case _ => "read"
  }

  /** `DRFPermissionMixin.get_required_permission`: `actionArg` is the argument,
      `viewAction` the viewset's `self.action` (used when the argument is falsy). */
  function GetRequiredPermission(moduleName: Option<string>, actionArg: Option<string>, viewAction: Option<string>): (r: Option<string>)
    ensures r.None? <==> !Truthy(moduleName)
    ensures r.Some? ==> exists op :: op in CrudOperations && r.value == DefaultCodename(moduleName.value, op)
  {
    if !Truthy(moduleName) then None
    else
      var current := if Truthy(actionArg) then actionArg else viewAction;
      Some(DefaultCodename(moduleName.value, ActionOperation(current)))
  }

  /** Each standard viewset action asks for the codename its HTTP method asks
      for under `ModuleCRUDPermissionMixin`, so the two gates agree. */
  lemma ActionGateMatchesMethodGate(db: Db, u: UserId, moduleName: Option<string>, action: string, httpMethod: string)
    requires Truthy(moduleName)
    requires (action, httpMethod) in [("list", "GET"), ("retrieve", "GET"), ("create", "POST"),
                                      ("update", "PUT"), ("partial_update", "PATCH"), ("destroy", "DELETE")]
    ensures GetRequiredPermission(moduleName, None, Some(action)).Some?
    ensures ModuleCrudGate(db, true, u, moduleName, httpMethod)
      <==> HasPermission(db, u, GetRequiredPermission(moduleName, None, Some(action)).value)
  {
  }

  datatype CheckOutcome = BaseRefused | Denied(message: string) | Allowed

  /** `DRFPermissionMixin.check_permissions`: `baseAllows` is the verdict of
      the view's permission classes (`super().check_permissions`), which is
      consulted first. */
  function CheckPermissions(db: Db, baseAllows: bool, u: UserId, moduleName: Option<string>, action: Option<string>): (r: CheckOutcome)
    ensures !baseAllows <==> r == BaseRefused
    ensures r.Denied? ==>
      (GetRequiredPermission(moduleName, None, action).Some?
       && r.message == "Permission denied. Required: " + GetRequiredPermission(moduleName, None, action).value)
  {
    if !baseAllows then BaseRefused
    else
      var required := GetRequiredPermission(moduleName, None, action);
      if Truthy(required) && !HasPermission(db, u, required.value)
      then Denied("Permission denied. Required: " + required.value)
      else Allowed
  }

  /** After the base classes pass, the mixin refuses exactly when it asks for a
      codename and the resolver says no. */
  lemma CheckPermissionsDeniesIff(db: Db, u: UserId, moduleName: Option<string>, action: Option<string>)
    ensures CheckPermissions(db, true, u, moduleName, action).Denied? <==>
      (GetRequiredPermission(moduleName, None, action).Some?
       && !HasPermission(db, u, GetRequiredPermission(moduleName, None, action).value))
  {
    var r := GetRequiredPermission(moduleName, None, action);
    if r.Some? {
      assert r.value != "" by {
        assert exists op :: op in CrudOperations && r.value == DefaultCodename(moduleName.value, op);
        var op :| op in CrudOperations && r.value == DefaultCodename(moduleName.value, op);
        assert |r.value| >= 1 + |op|;
      }
    }
  }

  // ---------------------------------------------------------------------
  // PermissionRequiredMixin

  /** Every code of the list holds. */
  predicate AllHold(db: Db, u: UserId, codes: seq<string>) {
    forall i :: 0 <= i < |codes| ==> HasPermission(db, u, codes[i])
  }

  /** Some code of the list holds (`any(...)`). */
  predicate AnyHolds(db: Db, u: UserId, codes: seq<string>) {
    exists i :: 0 <= i < |codes| && HasPermission(db, u, codes[i])
  }

  /** The first code of the list that does not hold, if any: the one the
      `for perm in required_permissions` loop stops at. */
  function FirstMissing(db: Db, u: UserId, codes: seq<string>): (r: Option<nat>)
    ensures r.None? <==> AllHold(db, u, codes)
    ensures r.Some? ==>
      (r.value < |codes| && !HasPermission(db, u, codes[r.value]) && AllHold(db, u, codes[..r.value]))
  {
    if codes == [] then None
    else if !HasPermission(db, u, codes[0]) then Some(0)
    else
      match FirstMissing(db, u, codes[1..])
      case None => None
      case Some(k) =>
        assert codes[..k + 1][1..] == codes[1..][..k];
        Some(k + 1)
  }

  datatype DispatchOutcome = Unauthorized | Forbidden(message: string) | Proceed

  /** `PermissionRequiredMixin.dispatch`. A list attribute that is None is
      passed as the empty list: both are falsy and both skip their check. */
  function Dispatch(db: Db, authenticated: bool, u: UserId, required: Option<string>,
                    requiredAll: seq<string>, requiredAny: seq<string>): DispatchOutcome
  {
    if !authenticated then Unauthorized
    else if Truthy(required) && !HasPermission(db, u, required.value) then
      Forbidden("Permission denied. Required: " + required.value)
    else match FirstMissing(db, u, requiredAll)
      case Some(k) => Forbidden("Permission denied. Required: " + requiredAll[k])
      case None =>
        if requiredAny != [] && !AnyHolds(db, u, requiredAny)
        then Forbidden("Permission denied. Required one of: " + Join(", ", requiredAny))
        else Proceed
  }

  /** The view runs exactly when the single, the all and the any requirement
      hold; unauthenticated requests are refused before any of them. */
  lemma DispatchProceedsIff(db: Db, authenticated: bool, u: UserId, required: Option<string>,
                            requiredAll: seq<string>, requiredAny: seq<string>)
    ensures !authenticated ==> Dispatch(db, authenticated, u, required, requiredAll, requiredAny) == Unauthorized
    ensures Dispatch(db, authenticated, u, required, requiredAll, requiredAny) == Proceed <==>
      authenticated
      && (Truthy(required) ==> HasPermission(db, u, required.value))
      && AllHold(db, u, requiredAll)
      && (requiredAny == [] || AnyHolds(db, u, requiredAny))
  {
  }

  /** When the all-requirement is what fails, the message names its first
      code that does not hold. */
  lemma DispatchNamesFirstMissing(db: Db, u: UserId, required: Option<string>,
                                  requiredAll: seq<string>, requiredAny: seq<string>, k: nat)
    requires !Truthy(required) || HasPermission(db, u, required.value)
    requires k < |requiredAll| && !HasPermission(db, u, requiredAll[k]) && AllHold(db, u, requiredAll[..k])
    ensures Dispatch(db, true, u, required, requiredAll, requiredAny) == Forbidden("Permission denied. Required: " + requiredAll[k])
  {
  }
}
