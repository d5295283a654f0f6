/** The endpoints that change the permission tables: creating a module's
    permissions in bulk, adding and removing a group's permissions and members,
    and recording a per-user override. Each works on the shared
    `PermissionStore` in place and appends to its audit log where the source
    does. The viewsets are gated by `HasPermissionMixin` with
    `permissions.read`; that gate is `PermissionMixins.HasPermissionGate`. */
module PermissionViews {
  import opened Common
  import opened PermissionModels
  import opened PermissionMixins
  import opened SerialIds

  datatype Response = Ok(message: string) | BadRequest(error: string) | NotFound(error: string) | IntegrityError

  // ---------------------------------------------------------------------
  // bulk_create_permissions

  /** The operations module `m` already has a permission for. */
  function OperationsOf(perms: map<PermId, Permission>, m: ModuleId): set<string> {
    set p | p in perms && perms[p].moduleId == m :: perms[p].operation
  }

  lemma OperationsOfAdd(perms: map<PermId, Permission>, id: PermId, row: Permission, m: ModuleId)
    requires id !in perms && row.moduleId == m
    ensures OperationsOf(perms[id := row], m) == OperationsOf(perms, m) + {row.operation}
  {
    var after := perms[id := row];
    assert forall p :: p in perms ==> after[p] == perms[p];
    assert row.operation in OperationsOf(after, m) by {
      assert id in after && after[id] == row;
    }
  }

  /** The requested operations a run of `get_or_create` calls creates, in
      order: those with no permission yet, each once. */
  function NewOperations(ops: seq<string>, existing: set<string>): seq<string> {
    if ops == [] then []
    else
      var init := ops[..|ops| - 1];
      var last := ops[|ops| - 1];
      if last in existing || last in init then NewOperations(init, existing) else NewOperations(init, existing) + [last]
  }

  /** The new operations are exactly the requested ones the module lacked,
      without repeats. */
  lemma {:induction false} NewOperationsSpec(ops: seq<string>, existing: set<string>)
    ensures forall op :: op in NewOperations(ops, existing) <==> op in ops && op !in existing
    ensures NoRepeats(NewOperations(ops, existing))
  {
    if ops != [] {
      var init := ops[..|ops| - 1];
      var last := ops[|ops| - 1];
      NewOperationsSpec(init, existing);
      assert ops == init + [last];
      var r := NewOperations(ops, existing);
      if !(last in existing || last in init) {
        assert r == NewOperations(init, existing) + [last];
      }
    }
  }

  lemma NewOperationsSnoc(ops: seq<string>, op: string, existing: set<string>)
    ensures NewOperations(ops + [op], existing) ==
      if op in existing || op in ops then NewOperations(ops, existing) else NewOperations(ops, existing) + [op]
  {
    assert (ops + [op])[..|ops|] == ops;
  }

  lemma NewPermissionsSnoc(m: ModuleId, row: Module, ops: seq<string>, op: string)
    ensures NewPermissions(m, row, ops + [op]) == NewPermissions(m, row, ops) + [NewPermission(m, row, op)]
  {
    assert (ops + [op])[..|ops|] == ops;
  }

  /** Once every requested operation exists, the same request creates nothing. */
  lemma {:induction false} NewOperationsEmptyWhenCovered(ops: seq<string>, existing: set<string>)
    requires forall op :: op in ops ==> op in existing
    ensures NewOperations(ops, existing) == []
  {
    if ops != [] {
      assert forall op :: op in ops[..|ops| - 1] ==> op in ops;
      NewOperationsEmptyWhenCovered(ops[..|ops| - 1], existing);
    }
  }

  /** The row `get_or_create(module=m, operation=op, defaults={'is_active': True})`
      writes, after `Permission.save` fills codename and name. */
  function NewPermission(m: ModuleId, row: Module, op: string): Permission {
    SaveDefaults(Permission(m, op, "", "", true), row)
  }

  function NewPermissions(m: ModuleId, row: Module, ops: seq<string>): (r: seq<Permission>)
    ensures |r| == |ops|
    ensures forall i :: 0 <= i < |ops| ==> r[i] == NewPermission(m, row, ops[i])
  {
    if ops == [] then []
    else
      var init := ops[..|ops| - 1];
      assert forall i :: 0 <= i < |init| ==> init[i] == ops[i];
      NewPermissions(m, row, init) + [NewPermission(m, row, ops[|ops| - 1])]
  }

  /** Under default codenames a missing (module, operation) pair has an
      unused default codename. */
  lemma NoCollisionUnderDefaults(db: Db, m: ModuleId, op: string)
    requires m in db.modules && UniqueModuleNames(db) && ForeignKeys(db)
    ensures DefaultCodenames(db) && NoDotInModuleNames(db) && op !in OperationsOf(db.permissions, m) ==>
      forall p :: p in db.permissions ==> db.permissions[p].codename != DefaultCodename(db.modules[m].name, op)
  {
    if DefaultCodenames(db) && NoDotInModuleNames(db) && op !in OperationsOf(db.permissions, m) {
      DefaultCodenameUnused(db, m, op);
    }
  }

  datatype GetOrCreate = Found | Created(row: Permission) | Failed

  /** What the loop of `bulk_create_permissions` has done after handling the
      operations `done`: earlier rows are intact, the rows created so far are
      the defaults for the new operations, and each new row is one of them. */
  ghost predicate BulkProgress(before: map<PermId, Permission>, now: map<PermId, Permission>, m: ModuleId, row: Module,
                               done: seq<string>, created: seq<Permission>) {
    (forall p :: p in before ==> p in now && now[p] == before[p])
    && created == NewPermissions(m, row, NewOperations(done, OperationsOf(before, m)))
    && OperationsOf(now, m) == OperationsOf(before, m) + Elements(done)
    && (forall p :: p in now && p !in before ==> now[p] in created)
  }

  /** A turn whose operation exists already: nothing is created, and since
      the operation is either one handled before or one the module had, the
      list of new operations does not grow. */
  lemma BulkStepFound(before: map<PermId, Permission>, now: map<PermId, Permission>,
                      m: ModuleId, row: Module, done: seq<string>, op: string, created: seq<Permission>)
    requires BulkProgress(before, now, m, row, done, created)
    requires op in OperationsOf(now, m)
    ensures BulkProgress(before, now, m, row, done + [op], created)
  {
    ElementsSnoc(done, op);
    NewOperationsSnoc(done, op, OperationsOf(before, m));
    assert op in OperationsOf(before, m) || op in done;
  }

  /** A turn that inserts the default row for a new operation under a fresh id. */
  lemma BulkStepCreated(before: map<PermId, Permission>, prev: map<PermId, Permission>, id: PermId, added: Permission,
                        m: ModuleId, row: Module, done: seq<string>, op: string, created: seq<Permission>)
    requires BulkProgress(before, prev, m, row, done, created)
    requires id !in prev && added == NewPermission(m, row, op) && op !in OperationsOf(prev, m)
    ensures BulkProgress(before, prev[id := added], m, row, done + [op], created + [added])
  {
    var after := prev[id := added];
    var existing := OperationsOf(before, m);
    ElementsSnoc(done, op);
    NewOperationsSnoc(done, op, existing);
    assert op !in existing && op !in done;
    NewPermissionsSnoc(m, row, NewOperations(done, existing), op);
    assert created + [added] == NewPermissions(m, row, NewOperations(done + [op], existing));
    OperationsOfAdd(prev, id, added, m);
    assert OperationsOf(after, m) == OperationsOf(before, m) + Elements(done + [op]) by {
      assert OperationsOf(after, m) == OperationsOf(prev, m) + {op};
      assert OperationsOf(prev, m) == existing + Elements(done);
    }
    assert forall p :: p in before ==> p in after && after[p] == before[p] by {
      assert forall p :: p in before ==> p in prev && prev[p] == before[p];
      assert id !in before;
    }
    assert forall p :: p in after && p !in before ==> after[p] in created + [added] by {
      forall p | p in after && p !in before
        ensures after[p] in created + [added]
      {
        if p != id {
          assert after[p] == prev[p];
        }
      }
    }
  }

  /** `Permission.objects.get_or_create(module=m, operation=op, defaults=...)`:
      find the (module, operation) row, or insert a new one under the next id.
      The insert fails (an `IntegrityError`) when the default codename is
      taken already. */
  method GetOrCreatePermission(store: PermissionStore, m: ModuleId, op: string) returns (r: GetOrCreate)
    requires store.Valid() && m in store.modules
    modifies store
    ensures store.Valid()
    ensures store.modules == old(store.modules) && store.userPermissions == old(store.userPermissions)
    ensures store.groupPermissions == old(store.groupPermissions) && store.memberships == old(store.memberships)
    ensures store.users == old(store.users) && store.groups == old(store.groups) && store.log == old(store.log)
    ensures op in OperationsOf(old(store.permissions), m) ==> r == Found
    ensures op !in OperationsOf(old(store.permissions), m) ==> r != Found
    ensures !r.Created? ==> store.permissions == old(store.permissions)
    ensures r.Created? ==>
      r.row == NewPermission(m, old(store.modules)[m], op)
      && old(store.nextPermissionId) !in old(store.permissions)
      && store.permissions == old(store.permissions)[old(store.nextPermissionId) := r.row]
    ensures r.Failed? <==> (op !in OperationsOf(old(store.permissions), m) &&
      exists p :: p in old(store.permissions) && old(store.permissions)[p].codename == DefaultCodename(old(store.modules)[m].name, op))
    ensures DefaultCodenames(old(store.Snapshot())) ==> DefaultCodenames(store.Snapshot())
  {
    if op in OperationsOf(store.permissions, m) {
      return Found;
    }
    var row := NewPermission(m, store.modules[m], op);
    if exists p :: p in store.permissions && store.permissions[p].codename == row.codename {
      return Failed;
    }
    var id := store.nextPermissionId;
    store.permissions := store.permissions[id := row];
    store.nextPermissionId := id + 1;
    r := Created(row);
  }

  /** One turn of the `bulk_create_permissions` loop: `get_or_create` for
      `ops[i]`, recording the row when one is created. */
  method BulkCreateOne(store: PermissionStore, ghost before: map<PermId, Permission>, m: ModuleId, ghost row: Module,
                       ops: seq<string>, i: nat, created: seq<Permission>)
    returns (failed: bool, created': seq<Permission>)
    requires store.Valid() && m in store.modules && row == store.modules[m] && i < |ops|
    requires BulkProgress(before, store.permissions, m, row, ops[..i], created)
    modifies store
    ensures store.Valid()
    ensures store.modules == old(store.modules) && store.userPermissions == old(store.userPermissions)
    ensures store.groupPermissions == old(store.groupPermissions) && store.memberships == old(store.memberships)
    ensures store.users == old(store.users) && store.groups == old(store.groups) && store.log == old(store.log)
    ensures !failed ==> BulkProgress(before, store.permissions, m, row, ops[..i + 1], created')
    ensures failed ==> (forall p :: p in before ==> p in store.permissions && store.permissions[p] == before[p])
    ensures DefaultCodenames(old(store.Snapshot())) && NoDotInModuleNames(old(store.Snapshot())) ==>
      !failed && DefaultCodenames(store.Snapshot()) && NoDotInModuleNames(store.Snapshot())
  {
    var op := ops[i];
    assert ops[..i + 1] == ops[..i] + [op];
    NoCollisionUnderDefaults(store.Snapshot(), m, op);
    ghost var prev := store.permissions;
    ghost var id := store.nextPermissionId;
    var r := GetOrCreatePermission(store, m, op);
    failed := r.Failed?;
    created' := created;
    if r.Found? {
      BulkStepFound(before, prev, m, row, ops[..i], op, created);
    } else if r.Created? {
      BulkStepCreated(before, prev, id, r.row, m, row, ops[..i], op, created);
      created' := created + [r.row];
    }
  }

  /** `ModuleViewSet.bulk_create_permissions`. The loop runs without a
      transaction: if a creation fails, the ones before it stay. */
  method BulkCreatePermissions(store: PermissionStore, moduleId: Option<nat>, operations: Option<seq<string>>)
    returns (resp: Response, created: seq<Permission>)
    requires store.Valid()
    modifies store
    ensures store.Valid()
    ensures MissingId(moduleId) ==> resp == BadRequest("module_id is required") && unchanged(store)
    ensures !MissingId(moduleId) && moduleId.value !in old(store.modules) ==>
      resp == NotFound("Module not found") && unchanged(store)
    ensures store.modules == old(store.modules) && store.userPermissions == old(store.userPermissions)
    ensures store.groupPermissions == old(store.groupPermissions) && store.memberships == old(store.memberships)
    ensures store.users == old(store.users) && store.groups == old(store.groups) && store.log == old(store.log)
    ensures forall p :: p in old(store.permissions) ==> p in store.permissions && store.permissions[p] == old(store.permissions)[p]
    ensures resp.Ok? ==>
      var m := moduleId.value;
      var ops := if operations.None? then CrudOperations else operations.value;
      created == NewPermissions(m, store.modules[m], NewOperations(ops, OperationsOf(old(store.permissions), m)))
      && OperationsOf(store.permissions, m) == OperationsOf(old(store.permissions), m) + Elements(ops)
      && (forall p :: p in store.permissions && p !in old(store.permissions) ==> store.permissions[p] in created)
    ensures DefaultCodenames(old(store.Snapshot())) && NoDotInModuleNames(old(store.Snapshot())) ==>
      !resp.IntegrityError? && DefaultCodenames(store.Snapshot())
  {
    created := [];
    var ops := if operations.None? then CrudOperations else operations.value;
    if MissingId(moduleId) {
      return BadRequest("module_id is required"), created;
    }
    var m := moduleId.value;
    if m !in store.modules {
      return NotFound("Module not found"), created;
    }
    ghost var before := store.permissions;
    ghost var row := store.modules[m];
    ghost var defaults := DefaultCodenames(store.Snapshot()) && NoDotInModuleNames(store.Snapshot());
    var i := 0;
    while i < |ops|
      invariant 0 <= i <= |ops|
      invariant store.Valid()
      invariant store.modules == old(store.modules) && store.userPermissions == old(store.userPermissions)
      invariant store.groupPermissions == old(store.groupPermissions) && store.memberships == old(store.memberships)
      invariant store.users == old(store.users) && store.groups == old(store.groups) && store.log == old(store.log)
      invariant BulkProgress(before, store.permissions, m, row, ops[..i], created)
      invariant defaults ==> DefaultCodenames(store.Snapshot()) && NoDotInModuleNames(store.Snapshot())
    {
      var failed;
      failed, created := BulkCreateOne(store, before, m, row, ops, i, created);
      if failed {
        return IntegrityError, created;
      }
      i := i + 1;
    }
    assert ops[..|ops|] == ops;
    resp := Ok("Created " + Decimal(|created|) + " permissions");
  }

  // ---------------------------------------------------------------------
  // UserGroupViewSet actions. `group` is the group of the `UserGroup` that
  // `get_object()` looks up; a missing one is DRF's 404.

  const GroupNotFound: string := "No UserGroup matches the given query."

  /** The group already holds a grant of permission `pid`. */
  predicate HasGroupGrant(rows: set<GroupPermission>, group: GroupId, pid: PermId) {
    exists gp :: gp in rows && gp.group == group && gp.permission == pid
  }

  /** `UserGroupViewSet.add_permission` */
  method AddPermission(store: PermissionStore, actor: UserId, group: GroupId, permissionId: Option<nat>)
    returns (resp: Response)
    requires store.Valid()
    modifies store
    ensures store.Valid()
    ensures store.modules == old(store.modules) && store.permissions == old(store.permissions)
    ensures store.userPermissions == old(store.userPermissions) && store.memberships == old(store.memberships)
    ensures store.users == old(store.users) && store.groups == old(store.groups)
    ensures store.nextPermissionId == old(store.nextPermissionId)
    ensures group !in old(store.groups) ==> resp == NotFound(GroupNotFound) && unchanged(store)
    ensures group in old(store.groups) && MissingId(permissionId) ==>
      resp == BadRequest("permission_id is required") && unchanged(store)
    ensures group in old(store.groups) && !MissingId(permissionId) && permissionId.value !in old(store.permissions) ==>
      resp == NotFound("Permission not found") && unchanged(store)
    ensures (group in old(store.groups) && !MissingId(permissionId) && permissionId.value in old(store.permissions)
      && HasGroupGrant(old(store.groupPermissions), group, permissionId.value)) ==>
      resp == Ok("Permission already exists for this group") && unchanged(store)
    ensures (group in old(store.groups) && !MissingId(permissionId) && permissionId.value in old(store.permissions)
      && !HasGroupGrant(old(store.groupPermissions), group, permissionId.value)) ==>
      resp == Ok("Permission added to group")
      && store.groupPermissions == old(store.groupPermissions) + {GroupPermission(group, permissionId.value, Some(actor))}
      && store.log == old(store.log) + [LogEntry(GrantGroup, actor, None, Some(permissionId.value), Some(group))]
    ensures resp.Ok? ==> HasGroupGrant(store.groupPermissions, group, permissionId.value)
    ensures resp.Ok? ==> forall u :: ((u, group) in store.memberships
      && !DirectlyDenied(store.Snapshot(), u, store.permissions[permissionId.value].codename)) ==>
      HasPermission(store.Snapshot(), u, store.permissions[permissionId.value].codename)
    ensures forall u, code :: HasPermission(old(store.Snapshot()), u, code) ==> HasPermission(store.Snapshot(), u, code)
  {
    if group !in store.groups {
      return NotFound(GroupNotFound);
    }
    if MissingId(permissionId) {
      return BadRequest("permission_id is required");
    }
    var pid := permissionId.value;
    if pid !in store.permissions {
      return NotFound("Permission not found");
    }
    if !HasGroupGrant(store.groupPermissions, group, pid) {
      ghost var before := store.Snapshot();
      var gp := GroupPermission(group, pid, Some(actor));
      store.groupPermissions := store.groupPermissions + {gp};
      store.log := store.log + [LogEntry(GrantGroup, actor, None, Some(pid), Some(group))];
      resp := Ok("Permission added to group");
      forall u, code
        ensures HasPermission(before, u, code) ==> HasPermission(store.Snapshot(), u, code)
      {
        GroupsMonotone(before, store.Snapshot(), u, code);
      }
    } else {
      resp := Ok("Permission already exists for this group");
    }
    var code := store.permissions[pid].codename;
    forall u | (u, group) in store.memberships && !DirectlyDenied(store.Snapshot(), u, code)
      ensures HasPermission(store.Snapshot(), u, code)
    {
      var gp :| gp in store.groupPermissions && gp.group == group && gp.permission == pid;
      GroupGrantReachesMembers(store.Snapshot(), gp, u);
    }
  }

  /** The grants left after deleting the group's grant of `pid`. */
  function WithoutGroupGrant(rows: set<GroupPermission>, group: GroupId, pid: PermId): set<GroupPermission> {
    set gp | gp in rows && !(gp.group == group && gp.permission == pid)
  }

  /** `UserGroupViewSet.remove_permission`: the log entry is written, then
      the row deleted. */
  method RemovePermission(store: PermissionStore, actor: UserId, group: GroupId, permissionId: Option<nat>)
    returns (resp: Response)
    requires store.Valid()
    modifies store
    ensures store.Valid()
    ensures store.modules == old(store.modules) && store.permissions == old(store.permissions)
    ensures store.userPermissions == old(store.userPermissions) && store.memberships == old(store.memberships)
    ensures store.users == old(store.users) && store.groups == old(store.groups)
    ensures store.nextPermissionId == old(store.nextPermissionId)
    ensures group !in old(store.groups) ==> resp == NotFound(GroupNotFound) && unchanged(store)
    ensures group in old(store.groups) && MissingId(permissionId) ==>
      resp == BadRequest("permission_id is required") && unchanged(store)
    ensures (group in old(store.groups) && !MissingId(permissionId)
      && !HasGroupGrant(old(store.groupPermissions), group, permissionId.value)) ==>
      resp == NotFound("Permission not found for this group") && unchanged(store)
    ensures (group in old(store.groups) && !MissingId(permissionId)
      && HasGroupGrant(old(store.groupPermissions), group, permissionId.value)) ==>
      resp == Ok("Permission removed from group")
      && store.groupPermissions == WithoutGroupGrant(old(store.groupPermissions), group, permissionId.value)
      && |store.groupPermissions| == |old(store.groupPermissions)| - 1
      && store.log == old(store.log) + [LogEntry(RevokeGroup, actor, None, Some(permissionId.value), Some(group))]
    ensures resp.Ok? ==> !HasGroupGrant(store.groupPermissions, group, permissionId.value)
    ensures forall u, code :: HasPermission(store.Snapshot(), u, code) ==> HasPermission(old(store.Snapshot()), u, code)
  {
    if group !in store.groups {
      return NotFound(GroupNotFound);
    }
    if MissingId(permissionId) {
      return BadRequest("permission_id is required");
    }
    var pid := permissionId.value;
    if !HasGroupGrant(store.groupPermissions, group, pid) {
      return NotFound("Permission not found for this group");
    }
    var gp :| gp in store.groupPermissions && gp.group == group && gp.permission == pid;
    store.log := store.log + [LogEntry(RevokeGroup, actor, None, Some(pid), Some(group))];
    RemoveOnlyGrant(store.groupPermissions, gp);
    ghost var before := store.Snapshot();
    store.groupPermissions := store.groupPermissions - {gp};
    resp := Ok("Permission removed from group");
    forall v, code
      ensures HasPermission(store.Snapshot(), v, code) ==> HasPermission(before, v, code)
    {
      GroupsMonotone(store.Snapshot(), before, v, code);
    }
  }

  /** Under `unique_together = ['group', 'permission']`, deleting the one
      matching row deletes every matching row. */
  lemma RemoveOnlyGrant(rows: set<GroupPermission>, gp: GroupPermission)
    requires gp in rows
    requires forall a, b :: a in rows && b in rows && a.group == b.group && a.permission == b.permission ==> a == b
    ensures rows - {gp} == WithoutGroupGrant(rows, gp.group, gp.permission)
    ensures |rows - {gp}| == |rows| - 1
  {
  }

  /** `UserGroupViewSet.add_user`: adding a member who is one already changes
      no membership, but is still logged. */
  method AddUser(store: PermissionStore, actor: UserId, group: GroupId, userId: Option<nat>, userName: string, groupName: string)
    returns (resp: Response)
    requires store.Valid()
    modifies store
    ensures store.Valid()
    ensures store.modules == old(store.modules) && store.permissions == old(store.permissions)
    ensures store.userPermissions == old(store.userPermissions) && store.groupPermissions == old(store.groupPermissions)
    ensures store.users == old(store.users) && store.groups == old(store.groups)
    ensures store.nextPermissionId == old(store.nextPermissionId)
    ensures group !in old(store.groups) ==> resp == NotFound(GroupNotFound) && unchanged(store)
    ensures group in old(store.groups) && MissingId(userId) ==> resp == BadRequest("user_id is required") && unchanged(store)
    ensures group in old(store.groups) && !MissingId(userId) && userId.value !in old(store.users) ==>
      resp == NotFound("User not found") && unchanged(store)
    ensures group in old(store.groups) && !MissingId(userId) && userId.value in old(store.users) ==>
      resp == Ok("User " + userName + " added to group " + groupName)
      && store.memberships == old(store.memberships) + {(userId.value, group)}
      && store.log == old(store.log) + [LogEntry(AddUserToGroup, actor, Some(userId.value), None, Some(group))]
    ensures forall u, code :: HasPermission(old(store.Snapshot()), u, code) ==> HasPermission(store.Snapshot(), u, code)
  {
    if group !in store.groups {
      return NotFound(GroupNotFound);
    }
    if MissingId(userId) {
      return BadRequest("user_id is required");
    }
    var u := userId.value;
    if u !in store.users {
      return NotFound("User not found");
    }
    ghost var before := store.Snapshot();
    store.memberships := store.memberships + {(u, group)};
    store.log := store.log + [LogEntry(AddUserToGroup, actor, Some(u), None, Some(group))];
    forall v, code
      ensures HasPermission(before, v, code) ==> HasPermission(store.Snapshot(), v, code)
    {
      GroupsMonotone(before, store.Snapshot(), v, code);
    }
    resp := Ok("User " + userName + " added to group " + groupName);
  }

  /** `UserGroupViewSet.remove_user`: removing a non-member changes no
      membership, but is still logged. */
  method RemoveUser(store: PermissionStore, actor: UserId, group: GroupId, userId: Option<nat>, userName: string, groupName: string)
    returns (resp: Response)
    requires store.Valid()
    modifies store
    ensures store.Valid()
    ensures store.modules == old(store.modules) && store.permissions == old(store.permissions)
    ensures store.userPermissions == old(store.userPermissions) && store.groupPermissions == old(store.groupPermissions)
    ensures store.users == old(store.users) && store.groups == old(store.groups)
    ensures store.nextPermissionId == old(store.nextPermissionId)
    ensures group !in old(store.groups) ==> resp == NotFound(GroupNotFound) && unchanged(store)
    ensures group in old(store.groups) && MissingId(userId) ==> resp == BadRequest("user_id is required") && unchanged(store)
    ensures group in old(store.groups) && !MissingId(userId) && userId.value !in old(store.users) ==>
      resp == NotFound("User not found") && unchanged(store)
    ensures group in old(store.groups) && !MissingId(userId) && userId.value in old(store.users) ==>
      resp == Ok("User " + userName + " removed from group " + groupName)
      && store.memberships == old(store.memberships) - {(userId.value, group)}
      && store.log == old(store.log) + [LogEntry(RemoveUserFromGroup, actor, Some(userId.value), None, Some(group))]
    ensures forall u, code :: HasPermission(store.Snapshot(), u, code) ==> HasPermission(old(store.Snapshot()), u, code)
  {
    if group !in store.groups {
      return NotFound(GroupNotFound);
    }
    if MissingId(userId) {
      return BadRequest("user_id is required");
    }
    var u := userId.value;
    if u !in store.users {
      return NotFound("User not found");
    }
    ghost var before := store.Snapshot();
    store.memberships := store.memberships - {(u, group)};
    store.log := store.log + [LogEntry(RemoveUserFromGroup, actor, Some(u), None, Some(group))];
    forall v, code
      ensures HasPermission(store.Snapshot(), v, code) ==> HasPermission(before, v, code)
    {
      GroupsMonotone(store.Snapshot(), before, v, code);
    }
    resp := Ok("User " + userName + " removed from group " + groupName);
  }

  // ---------------------------------------------------------------------
  // UserPermissionViewSet.create

  /** A new override of the only permission with its codename decides that
      codename for its user. */
  lemma OverrideDecides(db: Db, db': Db, row: UserPermission)
    requires UniqueCodenames(db) && row.permission in db.permissions
    requires !HasOverride(db.userPermissions, row.user, row.permission)
    requires db' == db.(userPermissions := db.userPermissions + {row})
    ensures HasPermission(db', row.user, db.permissions[row.permission].codename) <==> row.isGranted
  {
    var code := db.permissions[row.permission].codename;
    if row.isGranted {
      assert DirectlyGranted(db', row.user, code);
    } else {
      assert DirectlyDenied(db', row.user, code);
    }
  }

  const NotUnique: string := "The fields user, permission must make a unique set."

  /** The user already has an override row for `pid`. */
  predicate HasOverride(rows: set<UserPermission>, u: UserId, pid: PermId) {
    exists up :: up in rows && up.user == u && up.permission == pid
  }

  /** `UserPermissionViewSet.create`: the serializer checks that both keys
      exist and that the pair is new (the `unique_together` validator), then
      `perform_create` saves the row with the requester as `granted_by` and
      logs a grant or a revocation by `is_granted`. */
  method CreateUserPermission(store: PermissionStore, actor: UserId, user: UserId, pid: PermId, isGranted: bool)
    returns (resp: Response)
    requires store.Valid()
    modifies store
    ensures store.Valid()
    ensures store.modules == old(store.modules) && store.permissions == old(store.permissions)
    ensures store.groupPermissions == old(store.groupPermissions) && store.memberships == old(store.memberships)
    ensures store.users == old(store.users) && store.groups == old(store.groups)
    ensures store.nextPermissionId == old(store.nextPermissionId)
    ensures user !in old(store.users) || pid !in old(store.permissions) ==> resp.BadRequest? && unchanged(store)
    ensures user in old(store.users) && pid in old(store.permissions) && HasOverride(old(store.userPermissions), user, pid) ==>
      resp == BadRequest(NotUnique) && unchanged(store)
    ensures user in old(store.users) && pid in old(store.permissions) && !HasOverride(old(store.userPermissions), user, pid) ==>
      resp.Ok?
      && store.userPermissions == old(store.userPermissions) + {UserPermission(user, pid, isGranted, Some(actor))}
      && store.log == old(store.log) + [LogEntry(if isGranted then GrantUser else RevokeUser, actor, Some(user), Some(pid), None)]
    ensures resp.Ok? ==> (HasPermission(store.Snapshot(), user, store.permissions[pid].codename) <==> isGranted)
  {
    if user !in store.users {
      return BadRequest("Invalid pk \"" + Decimal(user) + "\" - object does not exist.");
    }
    if pid !in store.permissions {
      return BadRequest("Invalid pk \"" + Decimal(pid) + "\" - object does not exist.");
    }
    if HasOverride(store.userPermissions, user, pid) {
      return BadRequest(NotUnique);
    }
    ghost var before := store.Snapshot();
    var row := UserPermission(user, pid, isGranted, Some(actor));
    store.userPermissions := store.userPermissions + {row};
    OverrideDecides(before, store.Snapshot(), row);
    store.log := store.log + [LogEntry(if isGranted then GrantUser else RevokeUser, actor, Some(user), Some(pid), None)];
    resp := Ok("Created");
  }
}
