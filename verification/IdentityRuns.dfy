/** What every serial run of logins and bearer requests keeps. */
module IdentityRuns {
  import opened Prelude
  import opened Accounts
  import opened Identity

  // ---------- one request keeps the tables sound ----------

  lemma FindTenantAt(tenants: seq<Tenant>, i: nat)
    requires UniqueKeys(tenants) && i < |tenants|
    ensures FindTenant(tenants, tenants[i].scopeKey) == Some(i)
  {
  }

  // A workspace found by a principal's key is the principal's own organisation or account.
  lemma KeyNamesEntraTenant(db: Tables, p: Principal, t: nat)
    requires TenantsOk(db) && UsersOk(db) && t < |db.tenants| && db.tenants[t].scopeKey == p.Key()
    ensures db.tenants[t].entraTenant == p.entraTenant
  {
    assert Inhabited(db.users, t);
    var u :| 0 <= u < |db.users| && db.users[u].tenant == t;
    assert UserBelongs(db, u);
    ScopeKeyExactly(db.tenants[t].entraTenant, db.users[u].objectId, p.entraTenant, p.objectId);
  }

  lemma WithUserKeepsUsers(db: Tables, t: nat, p: Principal)
    requires UsersOk(db) && t < |db.tenants|
    requires ScopeKey(db.tenants[t].entraTenant, p.objectId) == db.tenants[t].scopeKey
    ensures UsersOk(WithUser(db, t, p)) && Extends(db, WithUser(db, t, p))
    ensures
      var u := UserIndex(WithUser(db, t, p), t, p.objectId);
      var after := WithUser(db, t, p);
      u < |after.users| && after.users[u].tenant == t && after.users[u].objectId == p.objectId
    ensures OnlyNewRow(db, WithUser(db, t, p), UserIndex(WithUser(db, t, p), t, p.objectId))
    ensures FindUser(db.users, t, p.objectId).Some? ==>
      UserIndex(WithUser(db, t, p), t, p.objectId) == UserIndex(db, t, p.objectId)
  {
    var after := WithUser(db, t, p);
    var at := match FindUser(db.users, t, p.objectId) case Some(u) => u case None => |db.users|;
    assert after.users[at].tenant == t && after.users[at].objectId == p.objectId;
    forall u | 0 <= u < |after.users| ensures UserBelongs(after, u) {
      if u < |db.users| {
        assert UserBelongs(db, u);
      }
    }
  }

  lemma RoleIsThere(db: Tables, t: nat, name: RoleName)
    requires RolesOk(db) && t < |db.tenants|
    ensures
      var roles := WithRole(db, t, name).roles;
      var r := RoleIndex(WithRole(db, t, name), t, name);
      && r < |roles| && roles[r] == Role(t, name)
      && db.roles <= roles && |roles| <= |db.roles| + 1
      && (|db.roles| < |roles| ==> r == |db.roles|)
      && (forall i, j | 0 <= i < j < |roles| :: roles[i] != roles[j])
      && (forall q | 0 <= q < |roles| :: roles[q].tenant < |db.tenants|)
  {
    var roles := WithRole(db, t, name).roles;
    if FindRole(db.roles, t, name).None? {
      assert roles[|db.roles|] == Role(t, name);
    }
  }

  lemma GrantsStayExact(db: Tables, t: nat, u: nat, name: RoleName)
    requires RolesOk(db) && t < |db.tenants|
    ensures
      var after := Authorized(db, t, u, name);
      && (forall g | g in after.grants :: g.role < |after.roles|)
      && (forall q, p | 0 <= q < |after.roles| ::
            Grant(q, p) in after.grants <==> p in PermissionsOf(after.roles[q].name) && p in after.catalogue)
  {
    RoleIsThere(db, t, name);
    var after := Authorized(db, t, u, name);
    forall q, p | 0 <= q < |after.roles|
      ensures Grant(q, p) in after.grants <==> p in PermissionsOf(after.roles[q].name) && p in after.catalogue
    {
      if q < |db.roles| {
        assert Grant(q, p) in db.grants <==> p in PermissionsOf(db.roles[q].name) && p in db.catalogue;
      } else {
        assert q == RoleIndex(WithRole(db, t, name), t, name);
        assert Grant(q, p) !in db.grants;
      }
    }
  }

  lemma AuthorizedKeepsRoles(db: Tables, t: nat, u: nat, name: RoleName)
    requires RolesOk(db) && AssignmentsOk(db) && t < |db.tenants| && u < |db.users| && db.users[u].tenant == t
    ensures RolesOk(Authorized(db, t, u, name)) && AssignmentsOk(Authorized(db, t, u, name))
    ensures Extends(db, Authorized(db, t, u, name))
    ensures
      var after := Authorized(db, t, u, name);
      var r := RoleIndex(after, t, name);
      r < |after.roles| && after.roles[r] == Role(t, name) && Assignment(t, u, r) in after.assignments
  {
    RoleIsThere(db, t, name);
    GrantsStayExact(db, t, u, name);
  }

  lemma AdministratorsRemain(db: Tables, after: Tables, t: nat, v: nat)
    requires Extends(db, after) && IsAdministrator(db, t, v)
    ensures IsAdministrator(after, t, v)
  {
    var r :| 0 <= r < |db.roles| && db.roles[r].name == TenantAdministrator && Assignment(t, v, r) in db.assignments;
    assert after.roles[r] == db.roles[r];
  }

  lemma NewAdministrator(db: Tables, t: nat, u: nat, name: RoleName, t': nat, v: nat)
    requires RolesOk(db) && AssignmentsOk(db) && t < |db.tenants| && u < |db.users| && db.users[u].tenant == t
    requires IsAdministrator(Authorized(db, t, u, name), t', v)
    ensures IsAdministrator(db, t', v) || (name == TenantAdministrator && t' == t && v == u)
  {
    RoleIsThere(db, t, name);
    var after := Authorized(db, t, u, name);
    var r :| 0 <= r < |after.roles| && after.roles[r].name == TenantAdministrator
             && Assignment(t', v, r) in after.assignments;
    if Assignment(t', v, r) in db.assignments {
      assert r < |db.roles| && after.roles[r] == db.roles[r];
    }
  }

  lemma AuthorizedAdministrators(db: Tables, t: nat, u: nat, name: RoleName, t': nat, v: nat)
    requires RolesOk(db) && AssignmentsOk(db) && t < |db.tenants| && u < |db.users| && db.users[u].tenant == t
    ensures IsAdministrator(Authorized(db, t, u, name), t', v)
       <==> IsAdministrator(db, t', v) || (name == TenantAdministrator && t' == t && v == u)
  {
    AuthorizedKeepsRoles(db, t, u, name);
    if IsAdministrator(Authorized(db, t, u, name), t', v) {
      NewAdministrator(db, t, u, name, t', v);
    }
    if IsAdministrator(db, t', v) {
      AdministratorsRemain(db, Authorized(db, t, u, name), t', v);
    }
  }

  lemma {:induction false} CountsSomeUser(users: seq<User>, t: nat, u: nat)
    requires u < |users| && users[u].tenant == t
    ensures CountUsers(users, t) >= 1
  {
    if u < |users| - 1 {
      CountsSomeUser(Front(users), t, u);
    }
  }

  lemma TenantHasUser(db: Tables, t: nat)
    requires TenantsOk(db) && t < |db.tenants|
    ensures CountUsers(db.users, t) >= 1
  {
    assert Inhabited(db.users, t);
    var u :| 0 <= u < |db.users| && db.users[u].tenant == t;
    CountsSomeUser(db.users, t, u);
  }

  lemma UsersStay(before: Tables, after: Tables)
    requires UsersOk(before) && after.users == before.users && |before.tenants| <= |after.tenants|
    requires forall t | 0 <= t < |before.tenants| ::
               after.tenants[t].scopeKey == before.tenants[t].scopeKey
               && after.tenants[t].entraTenant == before.tenants[t].entraTenant
    ensures UsersOk(after)
  {
    forall u | 0 <= u < |after.users| ensures UserBelongs(after, u) {
      assert UserBelongs(before, u);
    }
  }

  lemma TenantsKeepUsers(before: Tables, after: Tables)
    requires TenantsOk(before) && after.tenants == before.tenants && Extends(before, after)
    ensures TenantsOk(after)
  {
    forall t: nat | t < |after.tenants| ensures Inhabited(after.users, t) {
      assert Inhabited(before.users, t);
      var u :| 0 <= u < |before.users| && before.users[u].tenant == t;
      assert after.users[u].tenant == t;
    }
  }

  // At most one user row has been added, and then it is row u.
  ghost predicate OnlyNewRow(before: Tables, after: Tables, u: nat) {
    |after.users| <= |before.users| + 1 && (|before.users| < |after.users| ==> u == |before.users|)
  }

  // The tables and the decision once the user has been synchronised, in a login that creates the
  // workspace or not.
  ghost predicate Decided(db: Tables, p: Principal, tenantName: Option<string>, created: bool) {
    var (withUser, t, name) := AfterUser(db, p, tenantName);
    var u := UserIndex(withUser, t, p.objectId);
    && (created ==> t == |db.tenants| && |withUser.tenants| == t + 1 && name == TenantAdministrator)
    && (!created ==> t < |db.tenants| == |withUser.tenants| && name == Reader)
    && withUser.tenants[t].scopeKey == p.Key()
    && TenantsOk(withUser) && UsersOk(withUser)
    && Extends(db, withUser)
    && withUser.roles == db.roles && withUser.assignments == db.assignments && withUser.grants == db.grants
    && u < |withUser.users| && withUser.users[u].tenant == t && withUser.users[u].objectId == p.objectId
    && OnlyNewRow(db, withUser, u)
  }

  lemma KnownTenant(db: Tables, p: Principal, displayName: Option<string>)
    requires TenantsOk(db) && UsersOk(db) && FindTenant(db.tenants, p.Key()).Some?
    ensures
      var named := WithTenant(db, p, displayName);
      var t := FindTenant(db.tenants, p.Key()).value;
      && named == db.(tenants := named.tenants) && |named.tenants| == |db.tenants|
      && FindTenant(named.tenants, p.Key()) == Some(t)
      && named.tenants[t].entraTenant == p.entraTenant
      && TenantsOk(named) && UsersOk(named) && Extends(db, named)
      && CountUsers(named.users, t) >= 1
  {
    var t := FindTenant(db.tenants, p.Key()).value;
    var named := WithTenant(db, p, displayName);
    KeyNamesEntraTenant(db, p, t);
    assert UniqueKeys(named.tenants);
    FindTenantAt(named.tenants, t);
    UsersStay(db, named);
    TenantHasUser(db, t);
  }

  // A login to a workspace that already exists asks for the reader role.
  lemma KnownTenantLogin(db: Tables, p: Principal, tenantName: Option<string>)
    requires TenantsOk(db) && UsersOk(db) && FindTenant(db.tenants, p.Key()).Some?
    ensures Decided(db, p, tenantName, false)
  {
    var t := FindTenant(db.tenants, p.Key()).value;
    var named := WithTenant(db, p, DisplayNameFor(p, tenantName));
    KnownTenant(db, p, DisplayNameFor(p, tenantName));
    WithUserKeepsUsers(named, t, p);
    var after := WithUser(named, t, p);
    TenantsKeepUsers(named, after);
    ExtendsTransitive(db, named, after);
  }

  lemma NewKeyIsUnique(tenants: seq<Tenant>, t: Tenant)
    requires UniqueKeys(tenants) && FindTenant(tenants, t.scopeKey).None?
    ensures UniqueKeys(tenants + [t])
  {
  }

  lemma NewTenant(db: Tables, p: Principal, displayName: Option<string>)
    requires TenantsOk(db) && UsersOk(db) && FindTenant(db.tenants, p.Key()).None?
    ensures
      var named := WithTenant(db, p, displayName);
      && named == db.(tenants := named.tenants) && |named.tenants| == |db.tenants| + 1
      && FindTenant(named.tenants, p.Key()) == Some(|db.tenants|)
      && named.tenants[|db.tenants|].entraTenant == p.entraTenant
      && named.tenants[..|db.tenants|] == db.tenants
      && UniqueKeys(named.tenants) && UsersOk(named) && Extends(db, named)
      && named.tenants[|db.tenants|].personal == IsPersonal(p.entraTenant)
      && named.tenants[|db.tenants|].status == Active
  {
    var named := WithTenant(db, p, displayName);
    NewKeyIsUnique(db.tenants, Last(named.tenants));
    FindTenantAt(named.tenants, |db.tenants|);
    UsersStay(db, named);
  }

  // The new workspace gets its user, so that no workspace is empty.
  lemma NewTenantInhabited(db: Tables, after: Tables, u: nat)
    requires TenantsOk(db) && UniqueKeys(after.tenants) && |after.tenants| == |db.tenants| + 1
    requires after.tenants[..|db.tenants|] == db.tenants
    requires after.tenants[|db.tenants|].personal == IsPersonal(after.tenants[|db.tenants|].entraTenant)
    requires after.tenants[|db.tenants|].status == Active
    requires Extends(db, after) && u < |after.users| && after.users[u].tenant == |db.tenants|
    ensures TenantsOk(after)
  {
    forall s: nat | s < |after.tenants| ensures Inhabited(after.users, s) {
      if s < |db.tenants| {
        assert Inhabited(db.users, s);
        var v :| 0 <= v < |db.users| && db.users[v].tenant == s;
        assert after.users[v].tenant == s;
      }
    }
    forall s: nat | s < |after.tenants|
      ensures after.tenants[s].personal == IsPersonal(after.tenants[s].entraTenant) && after.tenants[s].status == Active
    {
      if s < |db.tenants| {
        assert after.tenants[s] == after.tenants[..|db.tenants|][s];
      }
    }
  }

  // A login to an unknown workspace creates it, and its first user, as administrator.
  lemma NewTenantLogin(db: Tables, p: Principal, tenantName: Option<string>)
    requires TenantsOk(db) && UsersOk(db) && FindTenant(db.tenants, p.Key()).None?
    ensures Decided(db, p, tenantName, true)
  {
    var t := |db.tenants|;
    var named := WithTenant(db, p, DisplayNameFor(p, tenantName));
    NewTenant(db, p, DisplayNameFor(p, tenantName));
    WithUserKeepsUsers(named, t, p);
    var after := WithUser(named, t, p);
    ExtendsTransitive(db, named, after);
    NewTenantInhabited(db, after, UserIndex(after, t, p.objectId));
  }

  lemma RolesSurvive(db: Tables, after: Tables)
    requires RolesOk(db) && AssignmentsOk(db) && Extends(db, after)
    requires after.roles == db.roles && after.assignments == db.assignments && after.grants == db.grants
    ensures RolesOk(after) && AssignmentsOk(after)
  {
  }

  lemma LoginAdministrators(db: Tables, p: Principal, tenantName: Option<string>, s: nat, v: nat)
    requires Sound(db)
    ensures
      var (withUser, t, name) := AfterUser(db, p, tenantName);
      IsAdministrator(Login(db, p, tenantName), s, v) <==>
        || IsAdministrator(db, s, v)
        || (name == TenantAdministrator && s == t && v == UserIndex(withUser, t, p.objectId))
  {
    var (withUser, t, name) := AfterUser(db, p, tenantName);
    LoginDecided(db, p, tenantName);
    AuthorizedAdministrators(withUser, t, UserIndex(withUser, t, p.objectId), name, s, v);
    assert IsAdministrator(withUser, s, v) <==> IsAdministrator(db, s, v);
  }

  lemma LoginDecided(db: Tables, p: Principal, tenantName: Option<string>)
    requires Sound(db)
    ensures Decided(db, p, tenantName, FindTenant(db.tenants, p.Key()).None?)
    ensures
      var (withUser, t, name) := AfterUser(db, p, tenantName);
      t < |withUser.tenants| && RolesOk(withUser) && AssignmentsOk(withUser)
  {
    if FindTenant(db.tenants, p.Key()).Some? {
      KnownTenantLogin(db, p, tenantName);
    } else {
      NewTenantLogin(db, p, tenantName);
    }
    RolesSurvive(db, AfterUser(db, p, tenantName).0);
  }

  lemma LoginKeepsTables(db: Tables, p: Principal, tenantName: Option<string>)
    requires Sound(db)
    ensures
      var after := Login(db, p, tenantName);
      TenantsOk(after) && UsersOk(after) && RolesOk(after) && AssignmentsOk(after) && Extends(db, after)
  {
    var (withUser, t, name) := AfterUser(db, p, tenantName);
    LoginDecided(db, p, tenantName);
    var u := UserIndex(withUser, t, p.objectId);
    AuthorizedKeepsRoles(withUser, t, u, name);
    var after := Authorized(withUser, t, u, name);
    TenantsKeepUsers(withUser, after);
    UsersStay(withUser, after);
    ExtendsTransitive(db, withUser, after);
  }

  // The login's own effect on the administrators, and on nothing else, keeps one to a workspace.
  lemma OneAdministratorStill(db: Tables, after: Tables, s: nat, u: nat, created: bool)
    requires UsersOk(db) && AssignmentsOk(db)
    requires s < |db.tenants| ==> OneAdministrator(db, s)
    requires |db.tenants| <= s ==> created
    requires forall v: nat :: IsAdministrator(after, s, v)
               <==> IsAdministrator(db, s, v) || (created && |db.tenants| <= s && v == u)
    ensures OneAdministrator(after, s)
  {
    if s < |db.tenants| {
      var admin: nat :| IsAdministrator(db, s, admin) && forall v :: IsAdministrator(db, s, v) ==> v == admin;
      assert IsAdministrator(after, s, admin);
    } else {
      NoAdministratorYet(db, s);
      assert IsAdministrator(after, s, u);
    }
  }

  lemma LoginKeepsSound(db: Tables, p: Principal, tenantName: Option<string>)
    requires Sound(db)
    ensures Sound(Login(db, p, tenantName)) && Extends(db, Login(db, p, tenantName))
  {
    var (withUser, t, name) := AfterUser(db, p, tenantName);
    var after := Login(db, p, tenantName);
    LoginKeepsTables(db, p, tenantName);
    var created := FindTenant(db.tenants, p.Key()).None?;
    LoginDecided(db, p, tenantName);
    var u := UserIndex(withUser, t, p.objectId);
    forall s: nat | s < |after.tenants| ensures OneAdministrator(after, s) {
      forall v: nat
        ensures IsAdministrator(after, s, v)
           <==> IsAdministrator(db, s, v) || (created && |db.tenants| <= s && v == u)
      {
        LoginAdministrators(db, p, tenantName, s, v);
      }
      OneAdministratorStill(db, after, s, u, created);
    }
  }

  lemma NoAdministratorYet(db: Tables, s: nat)
    requires UsersOk(db) && AssignmentsOk(db) && |db.tenants| <= s
    ensures forall v: nat :: !IsAdministrator(db, s, v)
  {
    forall v: nat, r: nat ensures Assignment(s, v, r) !in db.assignments {
      if v < |db.users| {
        assert UserBelongs(db, v);
      }
    }
  }

  lemma BearerKeepsSound(db: Tables, p: Principal)
    requires Sound(db)
    ensures Sound(Bearer(db, p).0) && Extends(db, Bearer(db, p).0)
    ensures Bearer(db, p).1 == if FindTenant(db.tenants, p.Key()).Some? then None else Some(NotOnboarded)
    ensures Bearer(db, p).0.tenants == db.tenants && Bearer(db, p).0.roles == db.roles
    ensures Bearer(db, p).0.assignments == db.assignments && Bearer(db, p).0.grants == db.grants
  {
    if FindTenant(db.tenants, p.Key()).Some? {
      var t := FindTenant(db.tenants, p.Key()).value;
      KeyNamesEntraTenant(db, p, t);
      WithUserKeepsUsers(db, t, p);
      var after := WithUser(db, t, p);
      TenantsKeepUsers(db, after);
      assert UserBelongs(after, UserIndex(after, t, p.objectId));
      forall s | 0 <= s < |after.tenants| ensures OneAdministrator(after, s) {
        assert OneAdministrator(db, s);
        assert forall v :: IsAdministrator(after, s, v) <==> IsAdministrator(db, s, v);
      }
    }
  }

  // ---------- runs ----------

  datatype Request = LoginRequest(p: Principal, tenantName: Option<string>) | BearerRequest(p: Principal)

  function Apply(db: Tables, r: Request): Tables {
    match r
    case LoginRequest(p, name) => Login(db, p, name)
    case BearerRequest(p) => Bearer(db, p).0
  }

  function Empty(catalogue: set<Permission>): Tables {
    Tables(catalogue, [], [], [], {}, {})
  }

  // Left-to-right execution of any request handler.
  function Run(handle: (Tables, Request) -> Tables, db: Tables, requests: seq<Request>): Tables {
    if requests == [] then db else handle(Run(handle, db, Front(requests)), Last(requests))
  }

  function After(catalogue: set<Permission>, requests: seq<Request>): Tables {
    Run(Apply, Empty(catalogue), requests)
  }

  lemma ApplyKeepsSound(db: Tables, r: Request)
    requires Sound(db)
    ensures Sound(Apply(db, r)) && Extends(db, Apply(db, r))
  {
    match r
    case LoginRequest(p, name) => LoginKeepsSound(db, p, name);
    case BearerRequest(p) => BearerKeepsSound(db, p);
  }

  ghost predicate KeepsSound(handle: (Tables, Request) -> Tables) {
    forall db, r | Sound(db) :: Sound(handle(db, r)) && Extends(db, handle(db, r))
  }

  lemma {:induction false} RunKeepsSound(handle: (Tables, Request) -> Tables, db: Tables, requests: seq<Request>)
    requires KeepsSound(handle) && Sound(db)
    ensures Sound(Run(handle, db, requests)) && Extends(db, Run(handle, db, requests))
  {
    if requests != [] {
      var before := Run(handle, db, Front(requests));
      RunKeepsSound(handle, db, Front(requests));
      ExtendsTransitive(db, before, handle(before, Last(requests)));
    }
  }

  lemma {:induction false} RunSplit(handle: (Tables, Request) -> Tables, db: Tables, requests: seq<Request>,
                                    more: seq<Request>)
    ensures Run(handle, db, requests + more) == Run(handle, Run(handle, db, requests), more)
  {
    if more == [] {
      assert requests + more == requests;
    } else {
      assert Front(requests + more) == requests + Front(more);
      RunSplit(handle, db, requests, Front(more));
    }
  }

  lemma ApplyKeepsSoundAlways()
    ensures KeepsSound(Apply)
  {
    forall db, r | Sound(db) ensures Sound(Apply(db, r)) && Extends(db, Apply(db, r)) {
      ApplyKeepsSound(db, r);
    }
  }

  lemma EveryRunIsSound(catalogue: set<Permission>, requests: seq<Request>)
    ensures Sound(After(catalogue, requests)) && After(catalogue, requests).catalogue == catalogue
  {
    ApplyKeepsSoundAlways();
    RunKeepsSound(Apply, Empty(catalogue), requests);
  }

  lemma RunsExtend(catalogue: set<Permission>, requests: seq<Request>, more: seq<Request>)
    ensures Extends(After(catalogue, requests), After(catalogue, requests + more))
  {
    EveryRunIsSound(catalogue, requests);
    ApplyKeepsSoundAlways();
    RunSplit(Apply, Empty(catalogue), requests, more);
    RunKeepsSound(Apply, After(catalogue, requests), more);
  }

  // ---------- workspace isolation ----------

  // A personal workspace never has more than one user.
  lemma PersonalWorkspaceIsSingleUser(catalogue: set<Permission>, requests: seq<Request>, u: nat, v: nat)
    requires
      var db := After(catalogue, requests);
      u < |db.users| && v < |db.users| && db.users[u].tenant == db.users[v].tenant < |db.tenants|
      && db.tenants[db.users[u].tenant].personal
    ensures u == v
  {
    EveryRunIsSound(catalogue, requests);
    var db := After(catalogue, requests);
    var e := db.tenants[db.users[u].tenant].entraTenant;
    assert UserBelongs(db, u) && UserBelongs(db, v);
    ScopeKeyExactly(e, db.users[u].objectId, e, db.users[v].objectId);
    assert db.users[u].objectId == db.users[v].objectId;
  }

  // Row u is p's: it has p's object id, and stands in the workspace that has p's key.
  ghost predicate IsRowOf(db: Tables, u: nat, p: Principal) {
    && u < |db.users| && db.users[u].objectId == p.objectId
    && db.users[u].tenant < |db.tenants| && db.tenants[db.users[u].tenant].scopeKey == p.Key()
  }

  // Request i was let in: a login, or a bearer request that was not refused.
  ghost predicate Accepted(catalogue: set<Permission>, requests: seq<Request>, i: nat)
    requires i < |requests|
  {
    requests[i].LoginRequest? || Bearer(After(catalogue, requests[..i]), requests[i].p).1.None?
  }

  lemma LoginLeavesRow(db: Tables, p: Principal, name: Option<string>) returns (u: nat)
    requires Sound(db)
    ensures IsRowOf(Login(db, p, name), u, p)
    ensures OnlyNewRow(db, Login(db, p, name), u)
  {
    var (withUser, t, role) := AfterUser(db, p, name);
    LoginDecided(db, p, name);
    u := UserIndex(withUser, t, p.objectId);
  }

  lemma BearerLeavesRow(db: Tables, p: Principal) returns (u: nat)
    requires Sound(db) && Bearer(db, p).1.None?
    ensures IsRowOf(Bearer(db, p).0, u, p)
    ensures OnlyNewRow(db, Bearer(db, p).0, u)
  {
    var t := FindTenant(db.tenants, p.Key()).value;
    KeyNamesEntraTenant(db, p, t);
    WithUserKeepsUsers(db, t, p);
    u := UserIndex(WithUser(db, t, p), t, p.objectId);
  }

  // One request that is let in leaves its principal's row, and adds no other.
  lemma RequestLeavesRow(db: Tables, r: Request) returns (u: nat)
    requires Sound(db) && (r.LoginRequest? || Bearer(db, r.p).1.None?)
    ensures IsRowOf(Apply(db, r), u, r.p)
    ensures OnlyNewRow(db, Apply(db, r), u)
  {
    match r
    case LoginRequest(p, name) => u := LoginLeavesRow(db, p, name);
    case BearerRequest(p) => u := BearerLeavesRow(db, p);
  }

  lemma NewLoginRow(db: Tables, p: Principal, name: Option<string>, u: nat)
    requires Sound(db) && |db.users| <= u < |Login(db, p, name).users|
    ensures IsRowOf(Login(db, p, name), u, p)
  {
    var at := LoginLeavesRow(db, p, name);
    NewRowIsThatRow(db, Login(db, p, name), at, u, p);
  }

  lemma NewRowIsThatRow(before: Tables, after: Tables, at: nat, u: nat, p: Principal)
    requires IsRowOf(after, at, p) && OnlyNewRow(before, after, at) && |before.users| <= u < |after.users|
    ensures IsRowOf(after, u, p)
  {
  }

  lemma NewBearerRow(db: Tables, p: Principal, u: nat)
    requires Sound(db) && |db.users| <= u < |Bearer(db, p).0.users|
    ensures IsRowOf(Bearer(db, p).0, u, p) && Bearer(db, p).1.None?
  {
    if Bearer(db, p).1.None? {
      var at := BearerLeavesRow(db, p);
    }
  }

  lemma NewRowIsRequesters(db: Tables, r: Request, u: nat)
    requires Sound(db) && |db.users| <= u < |Apply(db, r).users|
    ensures IsRowOf(Apply(db, r), u, r.p) && (r.LoginRequest? || Bearer(db, r.p).1.None?)
  {
    match r
    case LoginRequest(p, name) => NewLoginRow(db, p, name, u);
    case BearerRequest(p) => NewBearerRow(db, p, u);
  }

  lemma RowsStay(before: Tables, after: Tables, u: nat, p: Principal)
    requires Extends(before, after) && IsRowOf(before, u, p)
    ensures IsRowOf(after, u, p)
  {
  }

  // What was accepted, and the row it left, stays so when another request follows.
  lemma OneMoreRequest(catalogue: set<Permission>, requests: seq<Request>, i: nat, u: nat)
    requires requests != [] && i < |requests| - 1
    requires IsRowOf(After(catalogue, Front(requests)), u, requests[i].p)
    ensures IsRowOf(After(catalogue, requests), u, requests[i].p)
    ensures Accepted(catalogue, Front(requests), i) <==> Accepted(catalogue, requests, i)
  {
    var before := After(catalogue, Front(requests));
    assert Front(requests)[..i] == requests[..i];
    EveryRunIsSound(catalogue, Front(requests));
    ApplyKeepsSound(before, Last(requests));
    RowsStay(before, Apply(before, Last(requests)), u, requests[i].p);
  }

  // Nobody is in a workspace without a request of their own that was let in there ...
  lemma {:induction false} UsersAreInTheirOwnWorkspace(catalogue: set<Permission>, requests: seq<Request>, u: nat)
    returns (i: nat)
    requires u < |After(catalogue, requests).users|
    ensures i < |requests| && Accepted(catalogue, requests, i)
    ensures IsRowOf(After(catalogue, requests), u, requests[i].p)
  {
    var front, last := Front(requests), Last(requests);
    if u < |After(catalogue, front).users| {
      i := UsersAreInTheirOwnWorkspace(catalogue, front, u);
      OneMoreRequest(catalogue, requests, i, u);
    } else {
      i := |requests| - 1;
      assert requests[..i] == front;
      EveryRunIsSound(catalogue, front);
      NewRowIsRequesters(After(catalogue, front), last, u);
    }
  }

  // ... and whoever was let in has a row there for ever.
  lemma {:induction false} AcceptedRequestsLeaveRows(catalogue: set<Permission>, requests: seq<Request>, i: nat)
    returns (u: nat)
    requires i < |requests| && Accepted(catalogue, requests, i)
    ensures IsRowOf(After(catalogue, requests), u, requests[i].p)
  {
    var front, last := Front(requests), Last(requests);
    if i < |front| {
      assert front[..i] == requests[..i];
      u := AcceptedRequestsLeaveRows(catalogue, front, i);
      OneMoreRequest(catalogue, requests, i, u);
    } else {
      assert requests[..i] == front;
      EveryRunIsSound(catalogue, front);
      u := RequestLeavesRow(After(catalogue, front), last);
    }
  }

  // The rows of two principals are in one workspace exactly when the principals are of one
  // organisation, or are the same personal account; and they are one row exactly when the
  // object ids agree too.
  lemma RowsShareWorkspaceExactly(db: Tables, u: nat, p: Principal, v: nat, q: Principal)
    requires Sound(db) && IsRowOf(db, u, p) && IsRowOf(db, v, q)
    ensures db.users[u].tenant == db.users[v].tenant
       <==> SameScope(p.entraTenant, p.objectId, q.entraTenant, q.objectId)
    ensures u == v <==> SameScope(p.entraTenant, p.objectId, q.entraTenant, q.objectId) && p.objectId == q.objectId
    ensures FindTenant(db.tenants, p.Key()) == Some(db.users[u].tenant)
  {
    assert UniqueKeys(db.tenants);
    FindTenantAt(db.tenants, db.users[u].tenant);
    FindTenantAt(db.tenants, db.users[v].tenant);
    ScopeKeyExactly(p.entraTenant, p.objectId, q.entraTenant, q.objectId);
  }

  // Any two users let in during a run are in one workspace exactly when they share an
  // organisational tenant or are the same personal account.
  lemma SharedWorkspaceExactly(catalogue: set<Permission>, requests: seq<Request>, i: nat, j: nat)
    returns (u: nat, v: nat)
    requires i < |requests| && j < |requests| && Accepted(catalogue, requests, i) && Accepted(catalogue, requests, j)
    ensures
      var db, p, q := After(catalogue, requests), requests[i].p, requests[j].p;
      && IsRowOf(db, u, p) && IsRowOf(db, v, q)
      && (db.users[u].tenant == db.users[v].tenant
          <==> SameScope(p.entraTenant, p.objectId, q.entraTenant, q.objectId))
      && (u == v <==> SameScope(p.entraTenant, p.objectId, q.entraTenant, q.objectId) && p.objectId == q.objectId)
  {
    EveryRunIsSound(catalogue, requests);
    u := AcceptedRequestsLeaveRows(catalogue, requests, i);
    v := AcceptedRequestsLeaveRows(catalogue, requests, j);
    RowsShareWorkspaceExactly(After(catalogue, requests), u, requests[i].p, v, requests[j].p);
  }

  // Once onboarded, a principal stays in the same workspace.
  lemma WorkspaceIsStable(catalogue: set<Permission>, requests: seq<Request>, more: seq<Request>, p: Principal)
    requires FindTenant(After(catalogue, requests).tenants, p.Key()).Some?
    ensures FindTenant(After(catalogue, requests + more).tenants, p.Key())
         == FindTenant(After(catalogue, requests).tenants, p.Key())
  {
    RunsExtend(catalogue, requests, more);
    EveryRunIsSound(catalogue, requests + more);
    var t := FindTenant(After(catalogue, requests).tenants, p.Key()).value;
    assert UniqueKeys(After(catalogue, requests + more).tenants);
    FindTenantAt(After(catalogue, requests + more).tenants, t);
  }

  // ---------- roles and permissions ----------

  ghost predicate HasRole(db: Tables, t: nat, u: nat) {
    exists r :: 0 <= r < |db.roles| && Assignment(t, u, r) in db.assignments
  }

  // Effective permissions are those of the administrator role for the administrator, of the reader
  // role for anyone else who has logged in, and none for a user known only from bearer requests.
  lemma EffectiveExactly(db: Tables, t: nat, u: nat)
    requires Sound(db)
    ensures Effective(db, t, u) ==
      if IsAdministrator(db, t, u) then PermissionsOf(TenantAdministrator) * db.catalogue
      else if HasRole(db, t, u) then PermissionsOf(Reader) * db.catalogue
      else {}
  {
    assert PermissionsOf(Reader) <= PermissionsOf(TenantAdministrator);
    var expected := if IsAdministrator(db, t, u) then PermissionsOf(TenantAdministrator) * db.catalogue
                    else if HasRole(db, t, u) then PermissionsOf(Reader) * db.catalogue
                    else {};
    forall p | p in Effective(db, t, u) ensures p in expected {
      var g :| g in db.grants && Assignment(t, u, g.role) in db.assignments && g.permission == p;
      assert Grant(g.role, p) in db.grants;
    }
    forall p | p in expected ensures p in Effective(db, t, u) {
      if IsAdministrator(db, t, u) {
        var r :| 0 <= r < |db.roles| && db.roles[r].name == TenantAdministrator
                 && Assignment(t, u, r) in db.assignments;
        assert Grant(r, p) in db.grants;
        assert Grant(r, p).permission in Effective(db, t, u);
      } else {
        var r :| 0 <= r < |db.roles| && Assignment(t, u, r) in db.assignments;
        assert db.roles[r].name == Reader;
        assert Grant(r, p) in db.grants;
        assert Grant(r, p).permission in Effective(db, t, u);
      }
    }
  }

  // Each workspace has exactly one administrator, for ever the same user, who keeps the full
  // permission set although each later login asks for the reader role.
  lemma AdministratorIsForEver(catalogue: set<Permission>, requests: seq<Request>, more: seq<Request>, t: nat)
    returns (admin: nat)
    requires PermissionsOf(TenantAdministrator) <= catalogue
    requires t < |After(catalogue, requests).tenants|
    ensures forall v :: IsAdministrator(After(catalogue, requests), t, v) <==> v == admin
    ensures forall v :: IsAdministrator(After(catalogue, requests + more), t, v) <==> v == admin
    ensures Effective(After(catalogue, requests + more), t, admin) == PermissionsOf(TenantAdministrator)
  {
    EveryRunIsSound(catalogue, requests);
    EveryRunIsSound(catalogue, requests + more);
    RunsExtend(catalogue, requests, more);
    var before, after := After(catalogue, requests), After(catalogue, requests + more);
    assert OneAdministrator(before, t) && OneAdministrator(after, t);
    admin :| IsAdministrator(before, t, admin) && forall v :: IsAdministrator(before, t, v) ==> v == admin;
    var r :| 0 <= r < |before.roles| && before.roles[r].name == TenantAdministrator
             && Assignment(t, admin, r) in before.assignments;
    assert after.roles[r] == before.roles[r];
    assert IsAdministrator(after, t, admin);
    EffectiveExactly(after, t, admin);
    assert PermissionsOf(TenantAdministrator) * catalogue == PermissionsOf(TenantAdministrator);
  }

  // The principal whose login creates a workspace becomes its administrator.
  lemma FounderIsAdministrator(catalogue: set<Permission>, requests: seq<Request>, p: Principal, name: Option<string>)
    requires FindTenant(After(catalogue, requests).tenants, p.Key()).None?
    ensures
      var db := After(catalogue, requests + [LoginRequest(p, name)]);
      var t := FindTenant(db.tenants, p.Key());
      && t.Some? && FindUser(db.users, t.value, p.objectId).Some?
      && IsAdministrator(db, t.value, FindUser(db.users, t.value, p.objectId).value)
  {
    EveryRunIsSound(catalogue, requests);
    var db := After(catalogue, requests);
    assert Front(requests + [LoginRequest(p, name)]) == requests;
    var (withUser, t, role) := AfterUser(db, p, name);
    LoginDecided(db, p, name);
    var u := UserIndex(withUser, t, p.objectId);
    LoginAdministrators(db, p, name, t, u);
    var after := Login(db, p, name);
    LoginKeepsSound(db, p, name);
    FindTenantAt(after.tenants, t);
    assert after.users == withUser.users;
  }

  lemma LoginGivesRole(db: Tables, p: Principal, name: Option<string>) returns (u: nat)
    requires Sound(db)
    ensures IsRowOf(Login(db, p, name), u, p)
    ensures HasRole(Login(db, p, name), Login(db, p, name).users[u].tenant, u)
  {
    var (withUser, t, role) := AfterUser(db, p, name);
    LoginDecided(db, p, name);
    u := UserIndex(withUser, t, p.objectId);
    AuthorizedKeepsRoles(withUser, t, u, role);
    var after := Authorized(withUser, t, u, role);
    var r := RoleIndex(after, t, role);
    assert Assignment(t, u, r) in after.assignments;
  }

  lemma RolesStay(before: Tables, after: Tables, t: nat, u: nat)
    requires Extends(before, after) && HasRole(before, t, u)
    ensures HasRole(after, t, u)
  {
    var r :| 0 <= r < |before.roles| && Assignment(t, u, r) in before.assignments;
    assert Assignment(t, u, r) in after.assignments;
  }

  // Each login gives its principal a role, in every later state.
  lemma {:induction false} LoggedInUsersHaveRoles(catalogue: set<Permission>, requests: seq<Request>, i: nat)
    returns (u: nat)
    requires i < |requests| && requests[i].LoginRequest?
    ensures IsRowOf(After(catalogue, requests), u, requests[i].p)
    ensures HasRole(After(catalogue, requests), After(catalogue, requests).users[u].tenant, u)
  {
    var front, last := Front(requests), Last(requests);
    var before := After(catalogue, front);
    EveryRunIsSound(catalogue, front);
    if i < |front| {
      u := LoggedInUsersHaveRoles(catalogue, front, i);
      OneMoreRequest(catalogue, requests, i, u);
      ApplyKeepsSound(before, last);
      RolesStay(before, Apply(before, last), before.users[u].tenant, u);
    } else {
      u := LoginGivesRole(before, last.p, last.tenantName);
    }
  }

  // The four permissions of a reader, and all fifteen of an administrator.
  lemma PermissionsExactly(p: Permission)
    ensures p in PermissionsOf(TenantAdministrator)
    ensures p in PermissionsOf(Reader)
       <==> p == InventoryResourcesRead || p == RelationshipsRead || p == AnalysisRead || p == AuditRead
  {
  }

  // So, with the whole catalogue loaded, whoever has logged in can do everything as the workspace's
  // administrator, and otherwise exactly read inventory, relationships, analyses and audit records;
  // one who only made bearer requests can do nothing.
  lemma PermissionsOfUsers(catalogue: set<Permission>, requests: seq<Request>, u: nat, p: Permission)
    requires forall q: Permission :: q in catalogue
    requires u < |After(catalogue, requests).users|
    ensures
      var db := After(catalogue, requests);
      var t := db.users[u].tenant;
      p in Effective(db, t, u) <==>
        || IsAdministrator(db, t, u)
        || (HasRole(db, t, u) && p in {InventoryResourcesRead, RelationshipsRead, AnalysisRead, AuditRead})
  {
    EveryRunIsSound(catalogue, requests);
    EffectiveExactly(After(catalogue, requests), After(catalogue, requests).users[u].tenant, u);
    PermissionsExactly(p);
  }

  // A role comes from a login only.
  lemma {:induction false} RolesComeFromLogins(catalogue: set<Permission>, requests: seq<Request>, u: nat)
    returns (i: nat)
    requires u < |After(catalogue, requests).users|
    requires HasRole(After(catalogue, requests), After(catalogue, requests).users[u].tenant, u)
    ensures i < |requests| && requests[i].LoginRequest?
    ensures IsRowOf(After(catalogue, requests), u, requests[i].p)
  {
    var front, last := Front(requests), Last(requests);
    var before, db := After(catalogue, front), After(catalogue, requests);
    EveryRunIsSound(catalogue, front);
    var t := db.users[u].tenant;
    ApplyKeepsSound(before, last);
    if u < |before.users| && HasRole(before, t, u) {
      i := RolesComeFromLogins(catalogue, front, u);
      OneMoreRequest(catalogue, requests, i, u);
    } else {
      i := |requests| - 1;
      if |before.users| <= u {
        NoRoleYet(before, t, u);
      }
      NewRoleIsRequesters(before, last, u);
    }
  }

  lemma NoRoleYet(db: Tables, t: nat, u: nat)
    requires AssignmentsOk(db) && |db.users| <= u
    ensures !HasRole(db, t, u)
  {
  }

  lemma NewRoleIsRequesters(db: Tables, r: Request, u: nat)
    requires Sound(db) && u < |Apply(db, r).users|
    requires HasRole(Apply(db, r), Apply(db, r).users[u].tenant, u)
    requires !HasRole(db, Apply(db, r).users[u].tenant, u)
    ensures r.LoginRequest? && IsRowOf(Apply(db, r), u, r.p)
  {
    var t := Apply(db, r).users[u].tenant;
    match r
    case LoginRequest(p, name) => NewRoleOfLogin(db, p, name, t, u);
    case BearerRequest(p) =>
      BearerKeepsSound(db, p);
      SameRoles(db, Bearer(db, p).0, t, u);
  }

  lemma SameRoles(db: Tables, after: Tables, t: nat, u: nat)
    requires after.roles == db.roles && after.assignments == db.assignments
    ensures HasRole(after, t, u) <==> HasRole(db, t, u)
  {
  }

  lemma NewRoleOfLogin(db: Tables, p: Principal, name: Option<string>, t: nat, u: nat)
    requires Sound(db) && HasRole(Login(db, p, name), t, u) && !HasRole(db, t, u)
    ensures IsRowOf(Login(db, p, name), u, p)
  {
    var (withUser, s, role) := AfterUser(db, p, name);
    LoginDecided(db, p, name);
    SameRoles(db, withUser, t, u);
    OneNewAssignment(withUser, s, UserIndex(withUser, s, p.objectId), role, t, u);
  }

  lemma OneNewAssignment(db: Tables, s: nat, at: nat, role: RoleName, t: nat, u: nat)
    requires RolesOk(db) && AssignmentsOk(db) && s < |db.tenants|
    requires HasRole(Authorized(db, s, at, role), t, u)
    ensures (t == s && u == at) || HasRole(db, t, u)
  {
    var after := Authorized(db, s, at, role);
    var r :| 0 <= r < |after.roles| && Assignment(t, u, r) in after.assignments;
    if !(t == s && u == at) {
      assert Assignment(t, u, r) in db.assignments;
    }
  }

  // ---------- what rows show ----------

  // Row u shows p's names, counts one more visit, and is the only user row that changed.
  ghost predicate Synced(before: Tables, after: Tables, u: nat, p: Principal) {
    && u < |after.users| && |before.users| <= |after.users|
    && after.users[u].displayName == p.displayName && after.users[u].principalName == p.principalName
    && after.users[u].version == (if u < |before.users| then before.users[u].version + 1 else 1)
    && (forall v | 0 <= v < |before.users| && v != u :: after.users[v] == before.users[v])
  }

  // A request that is let in leaves its principal's names on the principal's row, counts there as
  // one more visit, and leaves every other user row as it was.
  lemma RequestShowsOnRow(db: Tables, r: Request) returns (u: nat)
    requires Sound(db) && (r.LoginRequest? || Bearer(db, r.p).1.None?)
    ensures IsRowOf(Apply(db, r), u, r.p) && Synced(db, Apply(db, r), u, r.p)
  {
    match r
    case LoginRequest(p, name) => u := LoginShowsOnRow(db, p, name);
    case BearerRequest(p) => u := BearerShowsOnRow(db, p);
  }

  lemma LoginShowsOnRow(db: Tables, p: Principal, name: Option<string>) returns (u: nat)
    requires Sound(db)
    ensures IsRowOf(Login(db, p, name), u, p) && Synced(db, Login(db, p, name), u, p)
  {
    var (withUser, t, role) := AfterUser(db, p, name);
    LoginDecided(db, p, name);
    u := UserIndex(withUser, t, p.objectId);
    var named := WithTenant(db, p, DisplayNameFor(p, name));
    SyncedRow(named, t, p);
    SyncedAsWell(named, withUser, db, Login(db, p, name), u, p);
  }

  lemma SyncedAsWell(a: Tables, b: Tables, a': Tables, b': Tables, u: nat, p: Principal)
    requires Synced(a, b, u, p) && a'.users == a.users && b'.users == b.users
    ensures Synced(a', b', u, p)
  {
  }

  lemma BearerShowsOnRow(db: Tables, p: Principal) returns (u: nat)
    requires Sound(db) && Bearer(db, p).1.None?
    ensures IsRowOf(Bearer(db, p).0, u, p) && Synced(db, Bearer(db, p).0, u, p)
  {
    var t := FindTenant(db.tenants, p.Key()).value;
    KeyNamesEntraTenant(db, p, t);
    WithUserKeepsUsers(db, t, p);
    u := UserIndex(WithUser(db, t, p), t, p.objectId);
    SyncedRow(db, t, p);
  }

  lemma SyncedRow(db: Tables, t: nat, p: Principal)
    requires forall u, v | 0 <= u < v < |db.users| ::
               db.users[u].tenant != db.users[v].tenant || db.users[u].objectId != db.users[v].objectId
    ensures Synced(db, WithUser(db, t, p), UserIndex(WithUser(db, t, p), t, p.objectId), p)
  {
    var after := WithUser(db, t, p);
    var at := match FindUser(db.users, t, p.objectId) case Some(u) => u case None => |db.users|;
    assert after.users[at].tenant == t && after.users[at].objectId == p.objectId;
  }

  // The name under which the workspace with p's key stands.
  predicate IsNamed(tenants: seq<Tenant>, p: Principal, name: string) {
    && FindTenant(tenants, p.Key()).Some?
    && tenants[FindTenant(tenants, p.Key()).value].displayName == name
  }

  lemma NamedAs(db: Tables, p: Principal, displayName: Option<string>)
    requires TenantsOk(db) && UsersOk(db)
    ensures
      var before := FindTenant(db.tenants, p.Key());
      IsNamed(WithTenant(db, p, displayName).tenants, p,
              if displayName.Some? && displayName.value != "" then displayName.value
              else if before.Some? then db.tenants[before.value].displayName else UuidText(p.entraTenant))
  {
    if FindTenant(db.tenants, p.Key()).Some? {
      KnownTenant(db, p, displayName);
    } else {
      NewTenant(db, p, displayName);
    }
  }

  // The name of a workspace after a login: the name given; or else, for a personal account, the
  // account's; or else what it was, at first the text of the organisation's identifier.
  lemma LoginNamesWorkspace(db: Tables, p: Principal, name: Option<string>)
    requires Sound(db)
    ensures
      var before := FindTenant(db.tenants, p.Key());
      var given := if name.Some? && name.value != "" then name.value
                   else if p.entraTenant == CONSUMER_TENANT then p.displayName else "";
      IsNamed(Login(db, p, name).tenants, p,
              if given != "" then given
              else if before.Some? then db.tenants[before.value].displayName else UuidText(p.entraTenant))
  {
    NamedAs(db, p, DisplayNameFor(p, name));
    assert Login(db, p, name).tenants == WithTenant(db, p, DisplayNameFor(p, name)).tenants;
  }

  // When a bearer request is refused, on any tables whatever, and that a refusal changes nothing.
  lemma BearerRefusesExactly(db: Tables, p: Principal)
    ensures
      var t := FindTenant(db.tenants, p.Key());
      && (Bearer(db, p).1 == Some(NotOnboarded) <==> t.None?)
      && (Bearer(db, p).1 == Some(TenantNotActive) <==> t.Some? && db.tenants[t.value].status != Active)
      && (Bearer(db, p).1.Some? ==> Bearer(db, p).0 == db)
      && (Bearer(db, p).1 == Some(UserDisabled) <==>
            t.Some? && db.tenants[t.value].status == Active && IsDisabled(db.users, t.value, p.objectId))
  {
    var t := FindTenant(db.tenants, p.Key());
    if t.Some? {
      SyncKeepsActivity(db, t.value, p);
    }
  }

  // The user is known there and has been disabled.
  predicate IsDisabled(users: seq<User>, t: nat, objectId: Uuid) {
    FindUser(users, t, objectId).Some? && !users[FindUser(users, t, objectId).value].isActive
  }

  lemma SyncKeepsActivity(db: Tables, t: nat, p: Principal)
    ensures
      var synced := WithUser(db, t, p);
      var u := UserIndex(synced, t, p.objectId);
      u < |synced.users| && (synced.users[u].isActive <==> !IsDisabled(db.users, t, p.objectId))
  {
    var synced := WithUser(db, t, p);
    match FindUser(db.users, t, p.objectId)
    case None => assert Last(synced.users) == synced.users[|db.users|];
    case Some(u) => FindUnchanged(db.users, synced.users, t, p.objectId);
  }

  lemma {:induction false} FindUnchanged(users: seq<User>, others: seq<User>, t: nat, objectId: Uuid)
    requires |users| == |others|
    requires forall u | 0 <= u < |users| ::
               users[u].tenant == others[u].tenant && users[u].objectId == others[u].objectId
    ensures FindUser(users, t, objectId) == FindUser(others, t, objectId)
  {
    if users != [] {
      FindUnchanged(Front(users), Front(others), t, objectId);
    }
  }

  // Nobody's effective permissions ever shrink.
  lemma PermissionsNeverShrink(catalogue: set<Permission>, requests: seq<Request>, more: seq<Request>, t: nat, u: nat)
    ensures Effective(After(catalogue, requests), t, u) <= Effective(After(catalogue, requests + more), t, u)
  {
    RunsExtend(catalogue, requests, more);
  }
}
