/**
 The identity tables as values: what one login and one bearer request do to them, and what every
 serial run of such requests keeps.
 */
module Identity {
  import opened Prelude
  import opened Accounts

  datatype Permission =
    | TenantOnboardingManage | IdentityRolesRead | IdentityRolesAssign
    | InventoryResourcesRead | InventorySyncExecute | RelationshipsRead
    | AnalysisCreate | AnalysisRead
    | OperationsCreate | OperationsApprove | OperationsExecute | OperationsCancel
    | AuditRead | AuditExport | SettingsManage

  datatype RoleName = TenantAdministrator | Reader

  function PermissionsOf(name: RoleName): set<Permission> {
    match name
    case TenantAdministrator =>
      {TenantOnboardingManage, IdentityRolesRead, IdentityRolesAssign, InventoryResourcesRead,
       InventorySyncExecute, RelationshipsRead, AnalysisCreate, AnalysisRead, OperationsCreate,
       OperationsApprove, OperationsExecute, OperationsCancel, AuditRead, AuditExport, SettingsManage}
    case Reader => {InventoryResourcesRead, RelationshipsRead, AnalysisRead, AuditRead}
  }

  datatype TenantStatus = Active | OtherStatus

  // Rows are never deleted, so a row's id is its position in its table.
  datatype Tenant = Tenant(entraTenant: Uuid, scopeKey: string, personal: bool, displayName: string,
                           status: TenantStatus)
  datatype User = User(tenant: nat, objectId: Uuid, displayName: string, principalName: Option<string>,
                       isActive: bool, version: nat)
  datatype Role = Role(tenant: nat, name: RoleName)
  datatype Assignment = Assignment(tenant: nat, user: nat, role: nat)
  datatype Grant = Grant(role: nat, permission: Permission)

  datatype Tables = Tables(
    catalogue: set<Permission>,
    tenants: seq<Tenant>,
    users: seq<User>,
    roles: seq<Role>,
    grants: set<Grant>,
    assignments: set<Assignment>)

  // An identity whose token has already been validated.
  datatype Principal = Principal(entraTenant: Uuid, objectId: Uuid, displayName: string, principalName: Option<string>)
  {
    function Key(): string {
      ScopeKey(entraTenant, objectId)
    }
  }

  // ---------- queries ----------

  function FindTenant(tenants: seq<Tenant>, key: string): (r: Option<nat>)
    ensures r.Some? ==> r.value < |tenants| && tenants[r.value].scopeKey == key
    ensures r.None? ==> forall i :: 0 <= i < |tenants| ==> tenants[i].scopeKey != key
  {
    if tenants == [] then None
    else if Last(tenants).scopeKey == key then Some(|tenants| - 1) else FindTenant(Front(tenants), key)
  }

  function FindUser(users: seq<User>, tenant: nat, objectId: Uuid): (r: Option<nat>)
    ensures r.Some? ==> r.value < |users| && users[r.value].tenant == tenant && users[r.value].objectId == objectId
    ensures r.None? ==> forall i :: 0 <= i < |users| ==> users[i].tenant != tenant || users[i].objectId != objectId
  {
    if users == [] then None
    else if Last(users).tenant == tenant && Last(users).objectId == objectId then Some(|users| - 1)
    else FindUser(Front(users), tenant, objectId)
  }

  function FindRole(roles: seq<Role>, tenant: nat, name: RoleName): (r: Option<nat>)
    ensures r.Some? ==> r.value < |roles| && roles[r.value] == Role(tenant, name)
    ensures r.None? ==> Role(tenant, name) !in roles
  {
    if roles == [] then None
    else if Last(roles) == Role(tenant, name) then Some(|roles| - 1) else FindRole(Front(roles), tenant, name)
  }

  function CountUsers(users: seq<User>, tenant: nat): nat {
    if users == [] then 0 else CountUsers(Front(users), tenant) + if Last(users).tenant == tenant then 1 else 0
  }

  // Effective permissions: the grants of the roles assigned to the user.
  function Effective(db: Tables, tenant: nat, user: nat): set<Permission> {
    set g | g in db.grants && Assignment(tenant, user, g.role) in db.assignments :: g.permission
  }

  // ---------- updates ----------

  function WithTenant(db: Tables, p: Principal, displayName: Option<string>): Tables {
    match FindTenant(db.tenants, p.Key())
    case Some(t) =>
      if displayName.Some? && displayName.value != "" && db.tenants[t].displayName != displayName.value
      then db.(tenants := db.tenants[t := db.tenants[t].(displayName := displayName.value)])
      else db
    case None =>
      db.(tenants := db.tenants + [
        Tenant(p.entraTenant, p.Key(), IsPersonal(p.entraTenant),
               if displayName.Some? && displayName.value != "" then displayName.value else UuidText(p.entraTenant),
               Active)])
  }

  function WithUser(db: Tables, tenant: nat, p: Principal): Tables {
    match FindUser(db.users, tenant, p.objectId)
    case Some(u) =>
      db.(users := db.users[u := db.users[u].(displayName := p.displayName, principalName := p.principalName,
                                              version := db.users[u].version + 1)])
    case None => db.(users := db.users + [User(tenant, p.objectId, p.displayName, p.principalName, true, 1)])
  }

  function WithRole(db: Tables, tenant: nat, name: RoleName): Tables {
    if FindRole(db.roles, tenant, name).Some? then db else db.(roles := db.roles + [Role(tenant, name)])
  }

  // Only permissions that are in the catalogue are granted.
  function WithGrants(db: Tables, role: nat, wanted: set<Permission>): Tables {
    db.(grants := db.grants + set p | p in wanted && p in db.catalogue :: Grant(role, p))
  }

  function WithAssignment(db: Tables, a: Assignment): Tables {
    db.(assignments := db.assignments + {a})
  }

  // ---------- requests ----------

  // The state of the tables when the role is decided, and after.
  function AfterUser(db: Tables, p: Principal, tenantName: Option<string>): (Tables, nat, RoleName) {
    var created := FindTenant(db.tenants, p.Key()).None?;
    var named := WithTenant(db, p, DisplayNameFor(p, tenantName));
    var t := TenantIndex(named, p);
    var role := if created || CountUsers(named.users, t) == 0 then TenantAdministrator else Reader;
    (WithUser(named, t, p), t, role)
  }

  function DisplayNameFor(p: Principal, tenantName: Option<string>): Option<string> {
    if tenantName.Some? && tenantName.value != "" then tenantName
    else if IsPersonal(p.entraTenant) then Some(p.displayName) else None
  }

  function TenantIndex(db: Tables, p: Principal): nat {
    match FindTenant(db.tenants, p.Key()) case Some(t) => t case None => 0
  }

  function UserIndex(db: Tables, tenant: nat, objectId: Uuid): nat {
    match FindUser(db.users, tenant, objectId) case Some(u) => u case None => 0
  }

  function RoleIndex(db: Tables, tenant: nat, name: RoleName): nat {
    match FindRole(db.roles, tenant, name) case Some(r) => r case None => 0
  }

  // A login: find or create the workspace, count its users, synchronise the user, then give the
  // first user the administrator role and every later login the reader role.
  function Login(db: Tables, p: Principal, tenantName: Option<string>): Tables {
    var (withUser, t, name) := AfterUser(db, p, tenantName);
    Authorized(withUser, t, UserIndex(withUser, t, p.objectId), name)
  }

  function Authorized(db: Tables, t: nat, u: nat, name: RoleName): Tables {
    var withRole := WithRole(db, t, name);
    var r := RoleIndex(withRole, t, name);
    WithAssignment(WithGrants(withRole, r, PermissionsOf(name)), Assignment(t, u, r))
  }

  datatype Refusal = NotOnboarded | TenantNotActive | UserDisabled

  // A bearer request synchronises the user of an onboarded workspace, or is refused and rolled back.
  function Bearer(db: Tables, p: Principal): (Tables, Option<Refusal>) {
    match FindTenant(db.tenants, p.Key())
    case None => (db, Some(NotOnboarded))
    case Some(t) =>
      if db.tenants[t].status != Active then (db, Some(TenantNotActive))
      else
        var synced := WithUser(db, t, p);
        if !synced.users[UserIndex(synced, t, p.objectId)].isActive then (db, Some(UserDisabled))
        else (synced, None)
  }

  // ---------- invariants ----------

  ghost predicate UniqueKeys(tenants: seq<Tenant>) {
    forall i, j | 0 <= i < j < |tenants| :: tenants[i].scopeKey != tenants[j].scopeKey
  }

  ghost predicate Inhabited(users: seq<User>, t: nat) {
    exists u :: 0 <= u < |users| && users[u].tenant == t
  }

  ghost predicate TenantsOk(db: Tables) {
    && UniqueKeys(db.tenants)
    && (forall t: nat | t < |db.tenants| ::
          db.tenants[t].personal == IsPersonal(db.tenants[t].entraTenant) && db.tenants[t].status == Active)
    && (forall t: nat | t < |db.tenants| :: Inhabited(db.users, t))
  }

  // A user's own identity belongs to the workspace the user is in.
  ghost predicate UsersOk(db: Tables) {
    && (forall u, v | 0 <= u < v < |db.users| ::
          db.users[u].tenant != db.users[v].tenant || db.users[u].objectId != db.users[v].objectId)
    && (forall u | 0 <= u < |db.users| :: UserBelongs(db, u))
  }

  ghost predicate UserBelongs(db: Tables, u: nat)
    requires u < |db.users|
  {
    var user := db.users[u];
    && user.tenant < |db.tenants| && user.isActive
    && ScopeKey(db.tenants[user.tenant].entraTenant, user.objectId) == db.tenants[user.tenant].scopeKey
  }

  // Every role holds exactly its permissions, as far as the catalogue has them.
  ghost predicate RolesOk(db: Tables) {
    && (forall i, j | 0 <= i < j < |db.roles| :: db.roles[i] != db.roles[j])
    && (forall r | 0 <= r < |db.roles| :: db.roles[r].tenant < |db.tenants|)
    && (forall g | g in db.grants :: g.role < |db.roles|)
    && (forall r, p | 0 <= r < |db.roles| ::
          Grant(r, p) in db.grants <==> p in PermissionsOf(db.roles[r].name) && p in db.catalogue)
  }

  ghost predicate AssignmentsOk(db: Tables) {
    forall a | a in db.assignments ::
      && a.user < |db.users| && db.users[a.user].tenant == a.tenant
      && a.role < |db.roles| && db.roles[a.role].tenant == a.tenant
  }

  ghost predicate IsAdministrator(db: Tables, t: nat, u: nat) {
    exists r :: 0 <= r < |db.roles| && db.roles[r].name == TenantAdministrator && Assignment(t, u, r) in db.assignments
  }

  ghost predicate OneAdministrator(db: Tables, t: nat) {
    exists u :: IsAdministrator(db, t, u) && forall v :: IsAdministrator(db, t, v) ==> v == u
  }

  ghost predicate Sound(db: Tables) {
    && TenantsOk(db) && UsersOk(db) && RolesOk(db) && AssignmentsOk(db)
    && forall t | 0 <= t < |db.tenants| :: OneAdministrator(db, t)
  }

  // Nothing is taken away: ids keep their meaning and administrators stay the same.
  ghost predicate Extends(before: Tables, after: Tables) {
    && after.catalogue == before.catalogue
    && |before.tenants| <= |after.tenants|
    && (forall t | 0 <= t < |before.tenants| :: after.tenants[t].scopeKey == before.tenants[t].scopeKey)
    && |before.users| <= |after.users|
    && (forall u | 0 <= u < |before.users| ::
          after.users[u].tenant == before.users[u].tenant && after.users[u].objectId == before.users[u].objectId)
    && before.roles <= after.roles
    && before.grants <= after.grants && before.assignments <= after.assignments
  }

  lemma ExtendsTransitive(a: Tables, b: Tables, c: Tables)
    requires Extends(a, b) && Extends(b, c)
    ensures Extends(a, c)
  {
  }
}
