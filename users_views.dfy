/** The `UserViewSet` actions that decide or change something: who may
    change whose password, group membership, and the department list.
    Membership is the `memberships` relation of the permission tables, so
    the resolver sees every change at once. */
module UserViews {
  import opened Common
  import opened PermissionModels
  import opened PermissionMixins

  datatype Response = Ok(message: string) | BadRequest(error: string) | NotFound(error: string)
                    | PermissionDenied(error: string) | Invalid

  /** The codename the viewset asks for on every action it does not list:
      `users.read`. */
  const UsersRead := "users.read"
  const UsersUpdate := "users.update"

  // ---------------------------------------------------------------------
  // change_password

  /** The stored passwords; `check_password` compares with the stored
      secret (hashing is not modelled). */
  class AccountStore {
    var passwords: map<UserId, string>

    constructor()
      ensures passwords == map[]
    {
      passwords := map[];
    }
  }

  /** The body of the request; an absent field is None. */
  datatype PasswordChange = PasswordChange(oldPassword: Option<string>, newPassword: Option<string>,
                                           newPasswordConfirm: Option<string>)

  /** `ChangePasswordSerializer.is_valid()`: all three fields present and not
      blank, the new password at least 8 characters long, and equal to its
      confirmation. The old password is required of every caller. */
  predicate ValidPasswordChange(c: PasswordChange) {
    Truthy(c.oldPassword) && Truthy(c.newPassword) && Truthy(c.newPasswordConfirm)
    && |c.newPassword.value| >= 8 && c.newPassword.value == c.newPasswordConfirm.value
  }

  /** The authorisation test of `change_password`: one's own password, or
      a superuser, or a holder of `users.update`. */
  predicate MayChangePassword(db: Db, requester: UserId, isSuperuser: bool, target: UserId) {
    target == requester || isSuperuser || HasPermission(db, requester, UsersUpdate)
  }

  /** `UserViewSet.change_password` once the viewset's own gate has passed:
      the target must exist, the requester must be allowed, the body must
      validate, and only a requester changing their own password must give
      the current one. */
  method ChangePassword(accounts: AccountStore, db: Db, requester: UserId, isSuperuser: bool, target: UserId,
                        body: PasswordChange) returns (r: Response)
    modifies accounts`passwords
    ensures target !in old(accounts.passwords) ==> r == NotFound("Not found.")
    ensures target in old(accounts.passwords) && !MayChangePassword(db, requester, isSuperuser, target) ==>
      r == PermissionDenied("Permission denied")
    ensures (target in old(accounts.passwords) && MayChangePassword(db, requester, isSuperuser, target)
             && !ValidPasswordChange(body)) ==> r == Invalid
    ensures (target in old(accounts.passwords) && target == requester && ValidPasswordChange(body)
             && old(accounts.passwords)[target] != body.oldPassword.value) ==> r == BadRequest("Invalid old password")
    ensures r.Ok? <==>
      target in old(accounts.passwords) && MayChangePassword(db, requester, isSuperuser, target) && ValidPasswordChange(body)
      && (target == requester ==> old(accounts.passwords)[target] == body.oldPassword.value)
    ensures r.Ok? ==> (r.message == "Password changed successfully"
                       && accounts.passwords == old(accounts.passwords)[target := body.newPassword.value])
    ensures !r.Ok? ==> accounts.passwords == old(accounts.passwords)
  {
    if target !in accounts.passwords {
      return NotFound("Not found.");
    }
    if target != requester && !isSuperuser {
      if !HasPermission(db, requester, UsersUpdate) {
        return PermissionDenied("Permission denied");
      }
    }
    if !ValidPasswordChange(body) {
      return Invalid;
    }
    if target == requester {
      if accounts.passwords[target] != body.oldPassword.value {
        return BadRequest("Invalid old password");
      }
    }
    accounts.passwords := accounts.passwords[target := body.newPassword.value];
    r := Ok("Password changed successfully");
  }

  /** The viewset's own gate asks `users.read` of this action, so through
      the endpoint a user changes even their own password only while holding
      `users.read`; changing another's needs, in addition, a superuser or
      `users.update`. */
  lemma ChangePasswordGate(db: Db, requester: UserId, isSuperuser: bool, target: UserId)
    ensures GetRequiredPermission(Some("users"), None, Some("change_password")) == Some(UsersRead)
    ensures CheckPermissions(db, true, requester, Some("users"), Some("change_password")) == Allowed
      <==> HasPermission(db, requester, UsersRead)
    ensures target != requester && !isSuperuser ==>
      (MayChangePassword(db, requester, isSuperuser, target) <==> HasPermission(db, requester, UsersUpdate))
  {
    assert DefaultCodename("users", "read") == UsersRead;
  }

  /** A denial of `users.update` on the requester keeps every other user's
      password out of reach unless they are a superuser, whatever their
      groups grant. */
  lemma DeniedUpdateBlocksOthers(db: Db, requester: UserId, target: UserId, up: UserPermission)
    requires up in db.userPermissions && up.user == requester && !up.isGranted && CodeIs(db, up.permission, UsersUpdate)
    requires target != requester
    ensures !MayChangePassword(db, requester, false, target)
  {
    DenialWins(db, requester, UsersUpdate, up);
  }

  // ---------------------------------------------------------------------
  // add_to_group and remove_from_group

  /** `UserViewSet.add_to_group`: the user is looked up first, then
      `group_id` (falsy gives 400), then the group. Adding a member again
      changes nothing. Unlike the group endpoints of the permission views,
      nothing is logged. */
  method AddToGroup(store: PermissionStore, user: UserId, groupId: Option<nat>, groupName: string) returns (r: Response)
    requires store.Valid()
    modifies store`memberships
    ensures store.Valid()
    ensures user !in old(store.users) ==> r == NotFound("Not found.")
    ensures user in old(store.users) && MissingId(groupId) ==> r == BadRequest("group_id is required")
    ensures user in old(store.users) && !MissingId(groupId) && groupId.value !in old(store.groups) ==>
      r == NotFound("Group not found")
    ensures r.Ok? <==> user in old(store.users) && !MissingId(groupId) && groupId.value in old(store.groups)
    ensures r.Ok? ==> (r.message == "User added to group " + groupName
                       && store.memberships == old(store.memberships) + {(user, groupId.value)})
    ensures !r.Ok? ==> store.memberships == old(store.memberships)
    ensures forall u, code :: HasPermission(old(store.Snapshot()), u, code) ==> HasPermission(store.Snapshot(), u, code)
  {
    if user !in store.users {
      return NotFound("Not found.");
    }
    if MissingId(groupId) {
      return BadRequest("group_id is required");
    }
    var g := groupId.value;
    if g !in store.groups {
      return NotFound("Group not found");
    }
    ghost var before := store.Snapshot();
    store.memberships := store.memberships + {(user, g)};
    forall v, code
      ensures HasPermission(before, v, code) ==> HasPermission(store.Snapshot(), v, code)
    {
      GroupsMonotone(before, store.Snapshot(), v, code);
    }
    r := Ok("User added to group " + groupName);
  }

  /** `UserViewSet.remove_from_group`: the same checks; removing a
      non-member succeeds and changes nothing. */
  method RemoveFromGroup(store: PermissionStore, user: UserId, groupId: Option<nat>, groupName: string) returns (r: Response)
    requires store.Valid()
    modifies store`memberships
    ensures store.Valid()
    ensures user !in old(store.users) ==> r == NotFound("Not found.")
    ensures user in old(store.users) && MissingId(groupId) ==> r == BadRequest("group_id is required")
    ensures user in old(store.users) && !MissingId(groupId) && groupId.value !in old(store.groups) ==>
      r == NotFound("Group not found")
    ensures r.Ok? <==> user in old(store.users) && !MissingId(groupId) && groupId.value in old(store.groups)
    ensures r.Ok? ==> (r.message == "User removed from group " + groupName
                       && store.memberships == old(store.memberships) - {(user, groupId.value)})
    ensures !r.Ok? ==> store.memberships == old(store.memberships)
    ensures forall u, code :: HasPermission(store.Snapshot(), u, code) ==> HasPermission(old(store.Snapshot()), u, code)
  {
    if user !in store.users {
      return NotFound("Not found.");
    }
    if MissingId(groupId) {
      return BadRequest("group_id is required");
    }
    var g := groupId.value;
    if g !in store.groups {
      return NotFound("Group not found");
    }
    ghost var before := store.Snapshot();
    store.memberships := store.memberships - {(user, g)};
    forall v, code
      ensures HasPermission(store.Snapshot(), v, code) ==> HasPermission(before, v, code)
    {
      GroupsMonotone(store.Snapshot(), before, v, code);
    }
    r := Ok("User removed from group " + groupName);
  }

  /** Only the pair (user, group) is touched: every other user keeps exactly
      the groups they had, and a second call leaves the relation as the
      first left it. */
  lemma MembershipUpdatesArePointwise(m: set<(UserId, GroupId)>, u: UserId, g: GroupId, v: UserId, h: GroupId)
    requires (v, h) != (u, g)
    ensures (v, h) in m + {(u, g)} <==> (v, h) in m
    ensures (v, h) in m - {(u, g)} <==> (v, h) in m
    ensures (u, g) in m + {(u, g)} && (u, g) !in m - {(u, g)}
    ensures m + {(u, g)} + {(u, g)} == m + {(u, g)} && m - {(u, g)} - {(u, g)} == m - {(u, g)}
  {
  }

  // ---------------------------------------------------------------------
  // departments

  /** The department values the queryset keeps: neither NULL nor "". */
  function NonBlank(rows: seq<Option<string>>): (r: seq<string>)
    ensures forall d :: d in r <==> Some(d) in rows && d != ""
  {
    if rows == [] then []
    else
      var init := rows[..|rows| - 1];
      var last := rows[|rows| - 1];
      assert rows == init + [last];
      NonBlank(init) + if Truthy(last) then [last.value] else []
  }

  /** `UserViewSet.departments`: the distinct NULL-free, non-empty department
      values of the users, given in the order the database returns them. */
  function Departments(rows: seq<Option<string>>): (r: seq<string>)
    ensures forall d :: d in r <==> Some(d) in rows && d != ""
    ensures NoRepeats(r)
  {
    Distinct(NonBlank(rows))
  }
}
