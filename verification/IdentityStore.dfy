/**
 The identity service over its tables, updated in place by the steps of one request in order. Each
 request is proved to leave the tables as the functions of module Identity say.
 */
module IdentityStore {
  import opened Prelude
  import opened Accounts
  import opened Identity

  datatype Resolved = Resolved(tenant: nat, user: nat, permissions: set<Permission>)
  datatype Reply = Granted(identity: Resolved) | Refused(reason: Refusal)

  class Service {
    var catalogue: set<Permission>
    var tenants: seq<Tenant>
    var users: seq<User>
    var roles: seq<Role>
    var grants: set<Grant>
    var assignments: set<Assignment>

    constructor (catalogue: set<Permission>)
      ensures Db() == Tables(catalogue, [], [], [], {}, {})
    {
      this.catalogue := catalogue;
      tenants, users, roles, grants, assignments := [], [], [], {}, {};
    }

    ghost function Db(): Tables
      reads this
    {
      Tables(catalogue, tenants, users, roles, grants, assignments)
    }

    method GetOrCreateTenant(p: Principal, displayName: Option<string>) returns (t: nat, created: bool)
      modifies this`tenants
      ensures Db() == WithTenant(old(Db()), p, displayName)
      ensures t < |tenants| && tenants[t].scopeKey == p.Key() && t == TenantIndex(Db(), p)
      ensures created <==> FindTenant(old(tenants), p.Key()).None?
    {
      var found := FindTenant(tenants, p.Key());
      var given := displayName.Some? && displayName.value != "";
      if found.Some? {
        t, created := found.value, false;
        if given && tenants[t].displayName != displayName.value {
          RenamingKeepsKeys(tenants, t, displayName.value, p.Key());
          tenants := tenants[t := tenants[t].(displayName := displayName.value)];
        }
        return;
      }
      var name := if given then displayName.value else UuidText(p.entraTenant);
      t, created := |tenants|, true;
      tenants := tenants + [Tenant(p.entraTenant, p.Key(), IsPersonal(p.entraTenant), name, Active)];
    }

    method SynchronizeUser(t: nat, p: Principal) returns (u: nat)
      modifies this`users
      ensures Db() == WithUser(old(Db()), t, p)
      ensures u < |users| && users[u].tenant == t && users[u].objectId == p.objectId
      ensures u == UserIndex(Db(), t, p.objectId)
    {
      var found := FindUser(users, t, p.objectId);
      if found.None? {
        u := |users|;
        users := users + [User(t, p.objectId, p.displayName, p.principalName, true, 1)];
      } else {
        u := found.value;
        SyncingKeepsUsers(users, u, p, t);
        var row := users[u].(displayName := p.displayName, principalName := p.principalName);
        users := users[u := row.(version := row.version + 1)];
      }
    }

    method GetOrCreateRole(t: nat, name: RoleName) returns (r: nat)
      modifies this`roles
      ensures Db() == WithRole(old(Db()), t, name)
      ensures r < |roles| && roles[r] == Role(t, name) && r == RoleIndex(Db(), t, name)
    {
      var found := FindRole(roles, t, name);
      if found.None? {
        r := |roles|;
        roles := roles + [Role(t, name)];
      } else {
        r := found.value;
      }
    }

    method GrantPermissions(r: nat, wanted: set<Permission>)
      modifies this`grants
      ensures Db() == WithGrants(old(Db()), r, wanted)
    {
      var permissions := catalogue * wanted;
      var left := permissions;
      while left != {}
        invariant left <= permissions
        invariant grants == old(grants) + set p | p in permissions - left :: Grant(r, p)
      {
        var p :| p in left;
        if Grant(r, p) !in grants {
          grants := grants + {Grant(r, p)};
        }
        assert permissions - (left - {p}) == permissions - left + {p};
        left := left - {p};
      }
      assert permissions - left == permissions;
    }

    method AssignRole(t: nat, u: nat, r: nat)
      modifies this`assignments
      ensures Db() == WithAssignment(old(Db()), Assignment(t, u, r))
    {
      var key := Assignment(t, u, r);
      if key !in assignments {
        assignments := assignments + {key};
      }
    }

    method OnboardOauthUser(p: Principal, tenantName: Option<string>) returns (identity: Resolved)
      modifies this
      ensures Db() == Login(old(Db()), p, tenantName)
      ensures identity.tenant < |tenants| && tenants[identity.tenant].scopeKey == p.Key()
      ensures identity.user == UserIndex(Db(), identity.tenant, p.objectId)
      ensures identity.permissions == Effective(Db(), identity.tenant, identity.user)
    {
      var t, created := GetOrCreateTenant(p, DisplayNameFor(p, tenantName));
      var existing := CountUsers(users, t);
      var u := SynchronizeUser(t, p);
      var name := if created || existing == 0 then TenantAdministrator else Reader;
      var r := GetOrCreateRole(t, name);
      GrantPermissions(r, PermissionsOf(name));
      AssignRole(t, u, r);
      identity := Resolved(t, u, EffectivePermissions(t, u));
    }

    method ResolveAndSync(p: Principal) returns (reply: Reply)
      modifies this
      ensures Db() == Bearer(old(Db()), p).0
      ensures reply.Refused? <==> Bearer(old(Db()), p).1.Some?
      ensures reply.Refused? ==> Bearer(old(Db()), p).1 == Some(reply.reason)
      ensures reply.Granted? ==>
        && reply.identity.tenant < |tenants| && tenants[reply.identity.tenant].scopeKey == p.Key()
        && reply.identity.user == UserIndex(Db(), reply.identity.tenant, p.objectId)
        && reply.identity.permissions == Effective(Db(), reply.identity.tenant, reply.identity.user)
    {
      var found := FindTenant(tenants, p.Key());
      if found.None? {
        return Refused(NotOnboarded);
      }
      var t := found.value;
      if tenants[t].status != Active {
        return Refused(TenantNotActive);
      }
      var saved := users;
      var u := SynchronizeUser(t, p);
      if !users[u].isActive {
        users := saved;  // the refusal rolls the transaction back
        return Refused(UserDisabled);
      }
      reply := Granted(Resolved(t, u, EffectivePermissions(t, u)));
    }

    function EffectivePermissions(t: nat, u: nat): (permissions: set<Permission>)
      reads this
      ensures permissions == Effective(Db(), t, u)
    {
      set g | g in grants && Assignment(t, u, g.role) in assignments :: g.permission
    }
  }

  lemma {:induction false} RenamingKeepsKeys(tenants: seq<Tenant>, t: nat, name: string, key: string)
    requires t < |tenants|
    ensures FindTenant(tenants[t := tenants[t].(displayName := name)], key) == FindTenant(tenants, key)
  {
    var renamed := tenants[t := tenants[t].(displayName := name)];
    if t < |tenants| - 1 {
      assert Front(renamed) == Front(tenants)[t := tenants[t].(displayName := name)];
      RenamingKeepsKeys(Front(tenants), t, name, key);
    } else {
      assert Front(renamed) == Front(tenants);
    }
  }

  lemma {:induction false} SyncingKeepsUsers(users: seq<User>, u: nat, p: Principal, t: nat)
    requires u < |users|
    ensures
      var row := users[u].(displayName := p.displayName, principalName := p.principalName,
                           version := users[u].version + 1);
      FindUser(users[u := row], t, p.objectId) == FindUser(users, t, p.objectId)
  {
    var row := users[u].(displayName := p.displayName, principalName := p.principalName,
                         version := users[u].version + 1);
    if u < |users| - 1 {
      assert Front(users[u := row]) == Front(users)[u := row];
      SyncingKeepsUsers(Front(users), u, p, t);
    } else {
      assert Front(users[u := row]) == Front(users);
    }
  }

  lemma {:induction false} NoUsersExactly(users: seq<User>, t: nat)
    ensures CountUsers(users, t) == 0 <==> forall u | 0 <= u < |users| :: users[u].tenant != t
  {
    if users != [] {
      NoUsersExactly(Front(users), t);
      assert forall u | 0 <= u < |users| - 1 :: users[u] == Front(users)[u];
    }
  }

  // Whatever the tables hold, a login makes an administrator exactly when its workspace is unknown
  // or still without users.
  lemma AdministratorRoleExactly(db: Tables, p: Principal, tenantName: Option<string>)
    ensures
      var found := FindTenant(db.tenants, p.Key());
      AfterUser(db, p, tenantName).2 == TenantAdministrator <==>
        found.None? || forall u | 0 <= u < |db.users| :: db.users[u].tenant != found.value
  {
    var found := FindTenant(db.tenants, p.Key());
    if found.Some? {
      var displayName := DisplayNameFor(p, tenantName);
      if displayName.Some? {
        RenamingKeepsKeys(db.tenants, found.value, displayName.value, p.Key());
      }
      NoUsersExactly(db.users, found.value);
    }
  }
}
