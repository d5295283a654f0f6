/** The permission tables of the hospital backend (modules, permissions,
    group grants, per-user overrides, group membership, the audit log) and the
    two resolvers that answer "may this user do X": `HasPermission`, a chain of
    existence checks, and `GetUserPermissions`, which collects every effective
    codename. Users, groups, modules and permissions are ids; the tables are
    sets and maps over those ids. */
module PermissionModels {
  import opened Common

  type UserId = nat
  type GroupId = nat
  type ModuleId = nat
  type PermId = nat

  /** A module row: `name` is unique, `display_name` is shown to people. */
  datatype Module = Module(name: string, displayName: string, isActive: bool)

  /** A permission row; `codename` is unique and so is (module, operation). */
  datatype Permission = Permission(moduleId: ModuleId, operation: string, codename: string, name: string, isActive: bool)

  /** A direct override: `isGranted == false` is an explicit denial. */
  datatype UserPermission = UserPermission(user: UserId, permission: PermId, isGranted: bool, grantedBy: Option<UserId>)

  datatype GroupPermission = GroupPermission(group: GroupId, permission: PermId, grantedBy: Option<UserId>)

  datatype LogAction = GrantUser | RevokeUser | GrantGroup | RevokeGroup | AddUserToGroup | RemoveUserFromGroup

  /** A `PermissionLog` row; its free-form `details` and timestamp are not modelled. */
  datatype LogEntry = LogEntry(action: LogAction, actor: UserId, targetUser: Option<UserId>, permission: Option<PermId>, group: Option<GroupId>)

  /** A snapshot of the tables the resolvers read. `memberships` holds the pairs
      (user, group) of Django's `user.groups` relation. */
  datatype Db = Db(
    modules: map<ModuleId, Module>,
    permissions: map<PermId, Permission>,
    userPermissions: set<UserPermission>,
    groupPermissions: set<GroupPermission>,
    memberships: set<(UserId, GroupId)>,
    users: set<UserId>,
    groups: set<GroupId>)

  // ---------------------------------------------------------------------
  // Database constraints

  /** `codename = CharField(unique=True)` */
  predicate UniqueCodenames(db: Db) {
    forall p, q :: p in db.permissions && q in db.permissions && db.permissions[p].codename == db.permissions[q].codename ==> p == q
  }

  /** `unique_together = ['module', 'operation']` on permissions. */
  predicate UniqueModuleOperation(db: Db) {
    forall p, q ::
      (p in db.permissions && q in db.permissions && db.permissions[p].moduleId == db.permissions[q].moduleId
       && db.permissions[p].operation == db.permissions[q].operation) ==> p == q
  }

  /** `name = CharField(unique=True)` on modules. */
  predicate UniqueModuleNames(db: Db) {
    forall m, n :: m in db.modules && n in db.modules && db.modules[m].name == db.modules[n].name ==> m == n
  }

  /** `unique_together = ['user', 'permission']` on overrides. */
  predicate UniqueUserPermissions(db: Db) {
    forall a, b :: a in db.userPermissions && b in db.userPermissions && a.user == b.user && a.permission == b.permission ==> a == b
  }

  /** `unique_together = ['group', 'permission']` on group grants. */
  predicate UniqueGroupPermissions(db: Db) {
    forall a, b :: a in db.groupPermissions && b in db.groupPermissions && a.group == b.group && a.permission == b.permission ==> a == b
  }

  /** Every foreign key points at an existing row. */
  predicate ForeignKeys(db: Db) {
    (forall p :: p in db.permissions ==> db.permissions[p].moduleId in db.modules)
    && (forall up :: up in db.userPermissions ==> up.user in db.users && up.permission in db.permissions)
    && (forall gp :: gp in db.groupPermissions ==> gp.group in db.groups && gp.permission in db.permissions)
    && (forall m :: m in db.memberships ==> m.0 in db.users && m.1 in db.groups)
  }

  /** Every constraint the database enforces. */
  predicate ConstraintsHold(db: Db) {
    UniqueCodenames(db) && UniqueModuleOperation(db) && UniqueModuleNames(db)
    && UniqueUserPermissions(db) && UniqueGroupPermissions(db) && ForeignKeys(db)
  }

  // ---------------------------------------------------------------------
  // has_permission

  /** Permission `pid` exists and has codename `code`. */
  predicate CodeIs(db: Db, pid: PermId, code: string) {
    pid in db.permissions && db.permissions[pid].codename == code
  }

  predicate DirectlyDenied(db: Db, u: UserId, code: string) {
    exists up :: up in db.userPermissions && up.user == u && !up.isGranted && CodeIs(db, up.permission, code)
  }

  predicate DirectlyGranted(db: Db, u: UserId, code: string) {
    exists up :: up in db.userPermissions && up.user == u && up.isGranted && CodeIs(db, up.permission, code)
  }

  /** Some group of the user holds a grant of the permission with that codename. */
  predicate GroupGranted(db: Db, u: UserId, code: string) {
    exists gp :: gp in db.groupPermissions && (u, gp.group) in db.memberships && CodeIs(db, gp.permission, code)
  }

  /** `UserPermission.has_permission`: an explicit denial wins, then an explicit
      grant, then the user's groups. */
  predicate HasPermission(db: Db, u: UserId, code: string) {
    if DirectlyDenied(db, u, code) then false
    else if DirectlyGranted(db, u, code) then true
    else GroupGranted(db, u, code)
  }

  /** A denial cannot be overridden by any group. */
  lemma DenialWins(db: Db, u: UserId, code: string, up: UserPermission)
    requires up in db.userPermissions && up.user == u && !up.isGranted && CodeIs(db, up.permission, code)
    ensures !HasPermission(db, u, code)
  {
  }

  /** Without a denial, a direct grant suffices, whatever the groups say. */
  lemma GrantWins(db: Db, u: UserId, code: string, up: UserPermission)
    requires !DirectlyDenied(db, u, code)
    requires up in db.userPermissions && up.user == u && up.isGranted && CodeIs(db, up.permission, code)
    ensures HasPermission(db, u, code)
  {
  }

  /** Without any override for the codename, the answer is the groups' answer. */
  lemma GroupsDecideWithoutOverride(db: Db, u: UserId, code: string)
    requires forall up :: up in db.userPermissions && up.user == u ==> !CodeIs(db, up.permission, code)
    ensures HasPermission(db, u, code) <==> GroupGranted(db, u, code)
  {
  }

  /** More group grants or more memberships, with the same overrides, take no
      permission away. */
  lemma GroupsMonotone(db: Db, db': Db, u: UserId, code: string)
    requires db'.userPermissions == db.userPermissions && db'.permissions == db.permissions
    requires db.groupPermissions <= db'.groupPermissions && db.memberships <= db'.memberships
    ensures HasPermission(db, u, code) ==> HasPermission(db', u, code)
  {
    if HasPermission(db, u, code) && !DirectlyGranted(db, u, code) {
      var gp :| gp in db.groupPermissions && (u, gp.group) in db.memberships && CodeIs(db, gp.permission, code);
      assert CodeIs(db', gp.permission, code);
    }
  }

  /** A group grant reaches every member of the group not denied the codename. */
  lemma GroupGrantReachesMembers(db: Db, gp: GroupPermission, u: UserId)
    requires gp in db.groupPermissions && gp.permission in db.permissions && (u, gp.group) in db.memberships
    requires !DirectlyDenied(db, u, db.permissions[gp.permission].codename)
    ensures HasPermission(db, u, db.permissions[gp.permission].codename)
  {
  }

  // ---------------------------------------------------------------------
  // get_user_permissions

  /** Codenames of the user's granting overrides (`filter(user=u, is_granted=True)`). */
  function DirectCodes(db: Db, u: UserId): set<string> {
    set up | up in db.userPermissions && up.user == u && up.isGranted && up.permission in db.permissions
      :: db.permissions[up.permission].codename
  }

  /** Permission ids the user is explicitly denied. */
  function DeniedIds(db: Db, u: UserId): set<PermId> {
    set up | up in db.userPermissions && up.user == u && !up.isGranted :: up.permission
  }

  /** Codenames granted to the user's groups, except denied permission ids. */
  function GroupCodes(db: Db, u: UserId): set<string> {
    set gp | gp in db.groupPermissions && (u, gp.group) in db.memberships
      && gp.permission !in DeniedIds(db, u) && gp.permission in db.permissions
      :: db.permissions[gp.permission].codename
  }

  /** What `get_user_permissions` returns, as a set. */
  function EffectivePermissions(db: Db, u: UserId): set<string> {
    DirectCodes(db, u) + GroupCodes(db, u)
  }

  /** The codenames of some override rows. */
  function OverrideCodes(db: Db, rows: set<UserPermission>): set<string> {
    set up | up in rows && up.permission in db.permissions :: db.permissions[up.permission].codename
  }

  /** The codenames of some group-grant rows. */
  function GrantCodes(db: Db, rows: set<GroupPermission>): set<string> {
    set gp | gp in rows && gp.permission in db.permissions :: db.permissions[gp.permission].codename
  }

  lemma OverrideCodesAdd(db: Db, rows: set<UserPermission>, up: UserPermission)
    requires up.permission in db.permissions
    ensures OverrideCodes(db, rows + {up}) == OverrideCodes(db, rows) + {db.permissions[up.permission].codename}
  {
  }

  lemma GrantCodesAdd(db: Db, rows: set<GroupPermission>, gp: GroupPermission)
    requires gp.permission in db.permissions
    ensures GrantCodes(db, rows + {gp}) == GrantCodes(db, rows) + {db.permissions[gp.permission].codename}
  {
  }

  /** The `direct_permissions` query. */
  function GrantingRows(db: Db, u: UserId): set<UserPermission> {
    set up | up in db.userPermissions && up.user == u && up.isGranted && up.permission in db.permissions
  }

  /** The `group_permissions` query, with denied permissions excluded. */
  function UndeniedGroupRows(db: Db, u: UserId): set<GroupPermission> {
    set gp | gp in db.groupPermissions && (u, gp.group) in db.memberships
      && gp.permission !in DeniedIds(db, u) && gp.permission in db.permissions
  }

  lemma RowCodes(db: Db, u: UserId)
    ensures OverrideCodes(db, GrantingRows(db, u)) == DirectCodes(db, u)
    ensures GrantCodes(db, UndeniedGroupRows(db, u)) == GroupCodes(db, u)
  {
  }

  /** The first loop of `get_user_permissions`: add the codename of every
      granting override to the result set. */
  method AddOverrideCodes(db: Db, rows: set<UserPermission>, acc: set<string>) returns (result: set<string>)
    requires forall up :: up in rows ==> up.permission in db.permissions
    ensures result == acc + OverrideCodes(db, rows)
  {
    result := acc;
    var rest := rows;
    while rest != {}
      invariant rest <= rows
      invariant result == acc + OverrideCodes(db, rows - rest)
      decreases |rest|
    {
      var up :| up in rest;
      OverrideCodesAdd(db, rows - rest, up);
      assert rows - (rest - {up}) == (rows - rest) + {up};
      result := result + {db.permissions[up.permission].codename};
      rest := rest - {up};
    }
    assert rows - rest == rows;
  }

  /** The second loop: add the codename of every undenied group grant. */
  method AddGrantCodes(db: Db, rows: set<GroupPermission>, acc: set<string>) returns (result: set<string>)
    requires forall gp :: gp in rows ==> gp.permission in db.permissions
    ensures result == acc + GrantCodes(db, rows)
  {
    result := acc;
    var rest := rows;
    while rest != {}
      invariant rest <= rows
      invariant result == acc + GrantCodes(db, rows - rest)
      decreases |rest|
    {
      var gp :| gp in rest;
      GrantCodesAdd(db, rows - rest, gp);
      assert rows - (rest - {gp}) == (rows - rest) + {gp};
      result := result + {db.permissions[gp.permission].codename};
      rest := rest - {gp};
    }
    assert rows - rest == rows;
  }

  /** `UserPermission.get_user_permissions`: fills a set from the direct grants,
      then from the group grants that are not denied, and returns it as a list
      (in no particular order). */
  method GetUserPermissions(db: Db, u: UserId) returns (codes: seq<string>)
    ensures forall i, j :: 0 <= i < j < |codes| ==> codes[i] != codes[j]
    ensures forall c :: c in codes <==> c in EffectivePermissions(db, u)
  {
    RowCodes(db, u);
    var permissions := AddOverrideCodes(db, GrantingRows(db, u), {});
    permissions := AddGrantCodes(db, UndeniedGroupRows(db, u), permissions);
    codes := ToList(permissions);
  }

  /** Every codename collected is one `has_permission` accepts. */
  lemma EffectiveImpliesHas(db: Db, u: UserId, code: string)
    requires UniqueCodenames(db) && UniqueUserPermissions(db)
    requires code in EffectivePermissions(db, u)
    ensures HasPermission(db, u, code)
  {
    if code in DirectCodes(db, u) {
      var up :| up in db.userPermissions && up.user == u && up.isGranted && up.permission in db.permissions
        && db.permissions[up.permission].codename == code;
      assert DirectlyGranted(db, u, code);
      assert !DirectlyDenied(db, u, code);
    } else {
      var gp :| gp in db.groupPermissions && (u, gp.group) in db.memberships
        && gp.permission !in DeniedIds(db, u) && gp.permission in db.permissions
        && db.permissions[gp.permission].codename == code;
      assert GroupGranted(db, u, code);
      assert !DirectlyDenied(db, u, code);
    }
  }

  /** Every codename `has_permission` accepts is collected. */
  lemma HasImpliesEffective(db: Db, u: UserId, code: string)
    requires HasPermission(db, u, code)
    ensures code in EffectivePermissions(db, u)
  {
    if DirectlyGranted(db, u, code) {
      var up :| up in db.userPermissions && up.user == u && up.isGranted && CodeIs(db, up.permission, code);
      assert code in DirectCodes(db, u);
    } else {
      var gp :| gp in db.groupPermissions && (u, gp.group) in db.memberships && CodeIs(db, gp.permission, code);
      assert gp.permission !in DeniedIds(db, u);
      assert code in GroupCodes(db, u);
    }
  }

  /** The two resolvers agree. This needs codenames to be unique (so that a
      codename names one permission) and overrides to be unique per (user,
      permission) (so that a grant and a denial cannot coexist). */
  lemma ResolversAgree(db: Db, u: UserId, code: string)
    requires UniqueCodenames(db) && UniqueUserPermissions(db)
    ensures code in EffectivePermissions(db, u) <==> HasPermission(db, u, code)
  {
    if code in EffectivePermissions(db, u) {
      EffectiveImpliesHas(db, u, code);
    }
    if HasPermission(db, u, code) {
      HasImpliesEffective(db, u, code);
    }
  }

  /** A user with no overrides and no groups has no permission at all. */
  lemma NoOverridesNoGroups(db: Db, u: UserId, code: string)
    requires forall up :: up in db.userPermissions ==> up.user != u
    requires forall m :: m in db.memberships ==> m.0 != u
    ensures EffectivePermissions(db, u) == {}
    ensures !HasPermission(db, u, code)
  {
    assert DirectCodes(db, u) == {};
    assert GroupCodes(db, u) == {};
  }

  /** The database with the `is_active` flag of permission `pid` set to `b`. */
  function WithPermissionActive(db: Db, pid: PermId, b: bool): (r: Db)
    requires pid in db.permissions
    ensures r.permissions.Keys == db.permissions.Keys
    ensures r.permissions[pid] == db.permissions[pid].(isActive := b)
    ensures forall q :: q in db.permissions && q != pid ==> r.permissions[q] == db.permissions[q]
    ensures r.(permissions := db.permissions) == db
  {
    db.(permissions := db.permissions[pid := db.permissions[pid].(isActive := b)])
  }

  /** Neither resolver reads `is_active`: toggling it changes no answer. */
  lemma ActiveFlagIgnored(db: Db, pid: PermId, b: bool, u: UserId, code: string)
    requires pid in db.permissions
    ensures HasPermission(WithPermissionActive(db, pid, b), u, code) == HasPermission(db, u, code)
    ensures EffectivePermissions(WithPermissionActive(db, pid, b), u) == EffectivePermissions(db, u)
  {
    var db2 := WithPermissionActive(db, pid, b);
    assert forall q :: q in db.permissions ==> db2.permissions[q].codename == db.permissions[q].codename;
    assert forall q, c :: CodeIs(db2, q, c) == CodeIs(db, q, c);
    assert DirectCodes(db2, u) == DirectCodes(db, u);
    assert GroupCodes(db2, u) == GroupCodes(db, u);
  }

  // ---------------------------------------------------------------------
  // Permission.save

  /** The default codename, `f"{module.name}.{operation}"`. */
  function DefaultCodename(moduleName: string, operation: string): string {
    moduleName + "." + operation
  }

  /** The default name, `f"Can {operation} {module.display_name.lower()}"`. */
  function DefaultName(operation: string, displayName: string): string {
    "Can " + operation + " " + Lower(displayName)
  }

  /** The row `Permission.save` writes: an empty codename or name is replaced
      by its default, a non-empty one is kept. */
  function SaveDefaults(p: Permission, m: Module): (r: Permission)
    ensures r.codename != "" && r.name != ""
    ensures p.codename != "" ==> r.codename == p.codename
    ensures p.name != "" ==> r.name == p.name
    ensures p.codename == "" ==> r.codename == DefaultCodename(m.name, p.operation)
    ensures p.name == "" ==> r.name == DefaultName(p.operation, m.displayName)
    ensures r.moduleId == p.moduleId && r.operation == p.operation && r.isActive == p.isActive
  {
    var codename := if p.codename == "" then DefaultCodename(m.name, p.operation) else p.codename;
    var name := if p.name == "" then DefaultName(p.operation, m.displayName) else p.name;
    assert |DefaultCodename(m.name, p.operation)| > 0 && |DefaultName(p.operation, m.displayName)| > 0;
    p.(codename := codename, name := name)
  }

  /** Saving twice writes the same row as saving once. */
  lemma SaveDefaultsIdempotent(p: Permission, m: Module)
    ensures SaveDefaults(SaveDefaults(p, m), m) == SaveDefaults(p, m)
  {
  }

  /** For module names without a dot, a default codename determines its module
      name and its operation: distinct (module, operation) pairs never collide. */
  lemma DefaultCodenameInjective(m1: string, o1: string, m2: string, o2: string)
    requires '.' !in m1 && '.' !in m2
    requires DefaultCodename(m1, o1) == DefaultCodename(m2, o2)
    ensures m1 == m2 && o1 == o2
  {
    var c := DefaultCodename(m1, o1);
    assert c == DefaultCodename(m2, o2);
    assert |m1| == |m2| by {
      assert c[|m1|] == '.' && c[|m2|] == '.';
    }
    assert m1 == c[..|m1|] == m2;
    assert o1 == c[|m1| + 1..] == o2;
  }

  /** Every permission carries the default codename of its module and
      operation (true of every row `bulk_create_permissions` writes). */
  predicate DefaultCodenames(db: Db) {
    forall p :: p in db.permissions && db.permissions[p].moduleId in db.modules ==>
      db.permissions[p].codename == DefaultCodename(db.modules[db.permissions[p].moduleId].name, db.permissions[p].operation)
  }

  predicate NoDotInModuleNames(db: Db) {
    forall m :: m in db.modules ==> '.' !in db.modules[m].name
  }

  /** With default codenames, dot-free and unique module names, the default
      codename of a (module, operation) pair that has no permission yet is
      unused: creating it cannot violate codename uniqueness. */
  lemma DefaultCodenameUnused(db: Db, m: ModuleId, op: string)
    requires m in db.modules
    requires DefaultCodenames(db) && NoDotInModuleNames(db) && UniqueModuleNames(db) && ForeignKeys(db)
    requires forall p :: p in db.permissions ==> !(db.permissions[p].moduleId == m && db.permissions[p].operation == op)
    ensures forall p :: p in db.permissions ==> db.permissions[p].codename != DefaultCodename(db.modules[m].name, op)
  {
    forall p | p in db.permissions
      ensures db.permissions[p].codename != DefaultCodename(db.modules[m].name, op)
    {
      var row := db.permissions[p];
      if row.codename == DefaultCodename(db.modules[m].name, op) {
        DefaultCodenameInjective(db.modules[row.moduleId].name, row.operation, db.modules[m].name, op);
      }
    }
  }

  // ---------------------------------------------------------------------
  // The tables, updated in place by the endpoints

  class PermissionStore {
    var modules: map<ModuleId, Module>
    var permissions: map<PermId, Permission>
    var userPermissions: set<UserPermission>
    var groupPermissions: set<GroupPermission>
    var memberships: set<(UserId, GroupId)>
    var users: set<UserId>
    var groups: set<GroupId>
    var log: seq<LogEntry>
    /** The next auto-increment id of the permissions table. */
    var nextPermissionId: PermId

    function Snapshot(): Db
      reads this
    {
      Db(modules, permissions, userPermissions, groupPermissions, memberships, users, groups)
    }

    ghost predicate Valid()
      reads this
    {
      ConstraintsHold(Snapshot()) && forall p :: p in permissions ==> p < nextPermissionId
    }

    constructor()
      ensures Valid()
      ensures modules == map[] && permissions == map[] && userPermissions == {} && groupPermissions == {}
      ensures memberships == {} && users == {} && groups == {} && log == []
    {
      modules := map[];
      permissions := map[];
      userPermissions := {};
      groupPermissions := {};
      memberships := {};
      users := {};
      groups := {};
      log := [];
      nextPermissionId := 1;
    }
  }
}
