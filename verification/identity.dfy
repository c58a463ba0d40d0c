/** Accounts, tenants, memberships and the cached identity (identity/service.go, tenant/service.go,
    tenant/member.go, cache/identity.go over store/identity.go): serial operations whose database,
    cluster-manager and session calls may fail, with a Redis that does not. */
module IdentityCache {
  import opened Options
  import opened Roles

  datatype User = User(
    username: string, displayName: string, email: string, passwordHash: string,
    isSystemAdmin: bool, mustChangePassword: bool, disabled: bool)

  datatype Identity = Identity(
    userId: string, username: string, isSystemAdmin: bool, mustChangePassword: bool, bindings: map<string, string>)

  datatype Error = Missing | Conflict | Invalid | InUse | LastAdmin | AccountDisabled | Internal

  datatype Reply = Done | Loaded(identity: Identity) | Failed(error: Error)

  datatype State = State(users: map<string, User>, roles: Table, tenants: set<string>, cache: map<string, Identity>)

  function BindingsOf(roles: Table, user: string): map<string, string>
    requires OneRole(roles)
  {
    map b | b in roles && b.user == user :: b.tenant := b.role
  }

  /** IdentityProvider.LoadIdentity: the uncached reference result. */
  function Fresh(users: map<string, User>, roles: Table, id: string): Reply
    requires OneRole(roles)
  {
    if id !in users then Failed(Missing)
    else if users[id].disabled then Failed(AccountDisabled)
    else var u := users[id];
         Loaded(Identity(id, u.username, u.isSystemAdmin, u.mustChangePassword, BindingsOf(roles, id)))
  }

  /** Every cached identity is the one the tables give now. */
  ghost predicate Coherent(s: State)
    requires OneRole(s.roles)
  {
    forall id | id in s.cache :: Fresh(s.users, s.roles, id) == Loaded(s.cache[id])
  }

  ghost predicate Valid(s: State) { OneRole(s.roles) && Coherent(s) }

  /** The operations; each `...Ok` says whether that remote call succeeds. */
  datatype Op =
    | Load(user: string)
    | Expire(user: string)
    | CreateUser(user: string, account: User, dbOk: bool)
    | UpdateUser(user: string, displayName: string, email: string, disabled: Option<bool>, dbOk: bool)
    | DeleteUser(user: string, revokeOk: bool, dbOk: bool)
    | SetPassword(user: string, hash: string, currentOk: bool, dbOk: bool, revokeOk: bool)
    | AddMember(tenant: string, who: Option<string>, role: string, dbOk: bool)
    | UpdateMember(tenant: string, user: string, role: string, dbOk: bool)
    | RemoveMember(tenant: string, user: string, dbOk: bool)
    | CreateTenant(tenant: string, who: Option<string>, rowOk: bool, clusterOk: bool, bindOk: bool, undoOk: bool)
    | DeleteTenant(tenant: string, idle: bool, clusterOk: bool, clearOk: bool, rowOk: bool)

  predicate ValidRole(role: string) { role == ADMIN || role == "user" }

  function MemberError(o: Outcome): Error {
    match o
    case NotFound => Missing
    case LastTenantAdmin => LastAdmin
    case Ok => Internal
  }

  /** The bust hook: drop the user's cached identity. */
  function Bust(s: State, user: string): State { s.(cache := s.cache - {user}) }

  function WithoutUser(roles: Table, user: string): Table { set b | b in roles && b.user != user }

  function WithoutTenant(roles: Table, tenant: string): Table { set b | b in roles && b.tenant != tenant }

  function MembersOf(roles: Table, tenant: string): Table { set b | b in roles && b.tenant == tenant }

  ghost function Apply(s: State, op: Op): (State, Reply)
    requires OneRole(s.roles)
  {
    match op
    case Load(user) =>
      if user in s.cache then (s, Loaded(s.cache[user])) else
      var r := Fresh(s.users, s.roles, user);
      (if r.Loaded? then s.(cache := s.cache[user := r.identity]) else s, r)
    case Expire(user) => (Bust(s, user), Done)
    case CreateUser(user, account, dbOk) =>
      if exists id :: id in s.users && s.users[id].username == account.username then (s, Failed(Conflict))
      else if !dbOk || user in s.users then (s, Failed(Internal))
      else (s.(users := s.users[user := account]), Done)
    case UpdateUser(user, displayName, email, disabled, dbOk) =>
      if user !in s.users then (s, Failed(Missing)) else
      if !dbOk then (s, Failed(Internal)) else
      var u := s.users[user];
      var u' := u.(displayName := if displayName != "" then displayName else u.displayName,
                   email := if email != "" then email else u.email,
                   disabled := if disabled.Some? then disabled.value else u.disabled);
      (Bust(s.(users := s.users[user := u']), user), Done)
    case DeleteUser(user, revokeOk, dbOk) =>
      if user !in s.users then (s, Failed(Missing))
      else if !revokeOk || !dbOk then (s, Failed(Internal))
      else (Bust(s.(users := s.users - {user}, roles := WithoutUser(s.roles, user)), user), Done)
    case SetPassword(user, hash, currentOk, dbOk, revokeOk) =>
      if user !in s.users then (s, Failed(Missing))
      else if !currentOk then (s, Failed(Invalid))
      else if !dbOk then (s, Failed(Internal))
      else (Bust(s.(users := s.users[user := s.users[user].(passwordHash := hash, mustChangePassword := false)]), user),
            if revokeOk then Done else Failed(Internal))
    case AddMember(tenant, who, role, dbOk) =>
      if tenant !in s.tenants then (s, Failed(Missing))
      else if !ValidRole(role) then (s, Failed(Invalid))
      else if who.None? || who.value !in s.users then (s, Failed(Missing))
      else if RowsOf(s.roles, who.value, tenant) != {} then (s, Failed(Conflict))
      else if !dbOk then (s, Failed(Internal))
      else (Bust(s.(roles := Rebind(s.roles, who.value, tenant, role)), who.value), Done)
    case UpdateMember(tenant, user, role, dbOk) =>
      if tenant !in s.tenants then (s, Failed(Missing))
      else if !ValidRole(role) then (s, Failed(Invalid))
      else if !dbOk then (s, Failed(Internal)) else
      var g := Guard(s.roles, Admins(s.roles, tenant), user, tenant, role);
      if g != Ok then (s, Failed(MemberError(g)))
      else (Bust(s.(roles := Rebind(s.roles, user, tenant, role)), user),
            if user in s.users then Done else Failed(Internal))
    case RemoveMember(tenant, user, dbOk) =>
      if tenant !in s.tenants then (s, Failed(Missing))
      else if !dbOk then (s, Failed(Internal)) else
      var g := Guard(s.roles, Admins(s.roles, tenant), user, tenant, "");
      if g != Ok then (s, Failed(MemberError(g)))
      else (Bust(s.(roles := Rebind(s.roles, user, tenant, "")), user), Done)
    case CreateTenant(tenant, who, rowOk, clusterOk, bindOk, undoOk) =>
      if who.None? || who.value !in s.users then (s, Failed(Missing))
      else if tenant in s.tenants then (s, Failed(Conflict))
      else if !rowOk then (s, Failed(Internal))
      else if !clusterOk || !bindOk then
        (if undoOk then s else s.(tenants := s.tenants + {tenant}), Failed(Internal))
      else (Bust(s.(tenants := s.tenants + {tenant}, roles := Rebind(s.roles, who.value, tenant, ADMIN)), who.value), Done)
    case DeleteTenant(tenant, idle, clusterOk, clearOk, rowOk) =>
      if tenant !in s.tenants then (s, Failed(Missing))
      else if MembersOf(s.roles, tenant) != {} || !idle then (s, Failed(InUse))
      else if !clusterOk || !clearOk then (s, Failed(Internal)) else
      var cleared := s.(roles := WithoutTenant(s.roles, tenant));
      if !rowOk then (cleared, Failed(Internal))
      else (cleared.(tenants := s.tenants - {tenant}), Done)
  }

  // ---- Coherence ------------------------------------------------------------------------------

  /** A change that touches only one user's account and bindings leaves every other identity. */
  lemma OthersUnaffected(s: State, s': State, user: string)
    requires Valid(s) && OneRole(s'.roles)
    requires forall id | id != user :: (id in s.users <==> id in s'.users) && (id in s.users ==> s.users[id] == s'.users[id])
    requires forall b: Binding | b.user != user :: b in s.roles <==> b in s'.roles
    requires s'.cache == s.cache - {user}
    ensures Valid(s')
  {
    forall id | id in s'.cache
      ensures Fresh(s'.users, s'.roles, id) == Loaded(s'.cache[id])
    {
      SameBindings(s.roles, s'.roles, id);
    }
  }

  lemma SameBindings(roles: Table, roles': Table, id: string)
    requires OneRole(roles) && OneRole(roles')
    requires forall b: Binding | b.user == id :: b in roles <==> b in roles'
    ensures BindingsOf(roles, id) == BindingsOf(roles', id)
  {
    var m, m' := BindingsOf(roles, id), BindingsOf(roles', id);
    forall t
      ensures t in m <==> t in m'
      ensures t in m ==> m[t] == m'[t]
    {
      if t in m {
        var b :| b in roles && b.user == id && b.tenant == t;
        assert b in roles' && m[t] == b.role && m'[t] == b.role;
      }
      if t in m' {
        var b :| b in roles' && b.user == id && b.tenant == t;
        assert b in roles;
      }
    }
  }

  lemma AccountOpsKeepCoherence(s: State, op: Op)
    requires Valid(s) && (op.UpdateUser? || op.DeleteUser? || op.SetPassword?)
    ensures Valid(Apply(s, op).0)
  {
    var s' := Apply(s, op).0;
    if s' != s { OthersUnaffected(s, s', op.user); }
  }

  lemma MemberOpsKeepCoherence(s: State, op: Op)
    requires Valid(s) && (op.AddMember? || op.UpdateMember? || op.RemoveMember?)
    ensures Valid(Apply(s, op).0)
  {
    var s' := Apply(s, op).0;
    if s' != s {
      var user := if op.AddMember? then op.who.value else op.user;
      RebindOneRole(s.roles, user, op.tenant, if op.RemoveMember? then "" else op.role);
      OthersUnaffected(s, s', user);
    }
  }

  lemma TenantOpsKeepCoherence(s: State, op: Op)
    requires Valid(s) && (op.CreateTenant? || op.DeleteTenant?)
    ensures Valid(Apply(s, op).0)
  {
    var s' := Apply(s, op).0;
    if op.CreateTenant? {
      if s'.roles != s.roles || s'.cache != s.cache {
        RebindOneRole(s.roles, op.who.value, op.tenant, ADMIN);
        OthersUnaffected(s, s', op.who.value);
      }
    } else if MembersOf(s.roles, op.tenant) == {} {
      NoMembersNothingCleared(s.roles, op.tenant);
    }
  }

  /** Every operation keeps the cache exact, whichever of its remote calls fail. */
  lemma ApplyKeepsCoherence(s: State, op: Op)
    requires Valid(s)
    ensures Valid(Apply(s, op).0)
  {
    match op {
      case Load(_) =>
      case Expire(_) =>
      case CreateUser(_, _, _) =>
      case UpdateUser(_, _, _, _, _) => AccountOpsKeepCoherence(s, op);
      case DeleteUser(_, _, _) => AccountOpsKeepCoherence(s, op);
      case SetPassword(_, _, _, _, _) => AccountOpsKeepCoherence(s, op);
      case AddMember(_, _, _, _) => MemberOpsKeepCoherence(s, op);
      case UpdateMember(_, _, _, _) => MemberOpsKeepCoherence(s, op);
      case RemoveMember(_, _, _) => MemberOpsKeepCoherence(s, op);
      case CreateTenant(_, _, _, _, _, _) => TenantOpsKeepCoherence(s, op);
      case DeleteTenant(_, _, _, _, _) => TenantOpsKeepCoherence(s, op);
    }
  }

  lemma NoMembersNothingCleared(roles: Table, tenant: string)
    requires MembersOf(roles, tenant) == {}
    ensures WithoutTenant(roles, tenant) == roles
  {
    assert forall b | b in roles :: b !in MembersOf(roles, tenant);
  }

  ghost function Exec(s: State, ops: seq<Op>): State
    requires Valid(s)
    ensures Valid(Exec(s, ops))
    decreases |ops|
  {
    if ops == [] then s else
      ApplyKeepsCoherence(s, ops[0]);
      Exec(Apply(s, ops[0]).0, ops[1..])
  }

  /** In every serial run, loading an identity through the cache gives exactly what the tables
      hold at that moment, errors included. */
  lemma CachedLoadIsFresh(s: State, ops: seq<Op>, user: string)
    requires Valid(s)
    ensures var t := Exec(s, ops);
            Apply(t, Load(user)).1 == Fresh(t.users, t.roles, user)
  {
    assert Coherent(Exec(s, ops));
  }

  /** DeleteByTenant never busts. Clearing a tenant's bindings keeps the cache exact exactly when
      no cached user is a member, which Delete's member-count check guarantees. */
  lemma ClearingSafeIff(s: State, tenant: string)
    requires Valid(s)
    ensures OneRole(WithoutTenant(s.roles, tenant))
    ensures Coherent(s.(roles := WithoutTenant(s.roles, tenant))) <==>
            forall b | b in s.roles && b.tenant == tenant :: b.user !in s.cache
  {
    var s' := s.(roles := WithoutTenant(s.roles, tenant));
    if forall b | b in s.roles && b.tenant == tenant :: b.user !in s.cache {
      forall id | id in s.cache
        ensures Fresh(s'.users, s'.roles, id) == Loaded(s.cache[id])
      {
        SameBindings(s.roles, s'.roles, id);
      }
    } else {
      var b :| b in s.roles && b.tenant == tenant && b.user in s.cache;
      assert Fresh(s.users, s.roles, b.user) == Loaded(s.cache[b.user]);
      assert tenant in s.cache[b.user].bindings;
      assert tenant !in BindingsOf(s'.roles, b.user);
      assert Fresh(s'.users, s'.roles, b.user) != Loaded(s.cache[b.user]);
    }
  }

  // ---- Tenants keep an admin ------------------------------------------------------------------

  /** The operation deletes the account of the tenant's only admin. */
  ghost predicate Strands(s: State, op: Op, tenant: string) {
    op.DeleteUser? && op.user in s.users && op.revokeOk && op.dbOk && Admins(s.roles, tenant) == {op.user}
  }

  /** A cascade takes the user's rows and no others. */
  lemma CascadeAdmins(roles: Table, user: string, tenant: string)
    ensures Admins(WithoutUser(roles, user), tenant) == Admins(roles, tenant) - {user}
  {
    forall u
      ensures u in Admins(WithoutUser(roles, user), tenant) <==> u in Admins(roles, tenant) && u != user
    {
      if u in Admins(roles, tenant) && u != user { assert Binding(u, tenant, ADMIN) in WithoutUser(roles, user); }
    }
  }

  lemma MemberOpsKeepAdmin(s: State, op: Op, tenant: string)
    requires OneRole(s.roles) && Admins(s.roles, tenant) != {} && (op.AddMember? || op.UpdateMember? || op.RemoveMember?)
    ensures Apply(s, op).0.tenants == s.tenants && Admins(Apply(s, op).0.roles, tenant) != {}
  {
    if Apply(s, op).0.roles != s.roles {
      var user := if op.AddMember? then op.who.value else op.user;
      var role := if op.RemoveMember? then "" else op.role;
      RebindAdmins(s.roles, user, op.tenant, role, tenant);
      if op.AddMember? {
        assert Binding(user, op.tenant, ADMIN) !in RowsOf(s.roles, user, op.tenant);
      } else {
        SerialGuard(s.roles, user, op.tenant, role);
      }
    }
  }

  lemma TenantOpsKeepAdmin(s: State, op: Op, tenant: string)
    requires OneRole(s.roles) && tenant in s.tenants && Admins(s.roles, tenant) != {} && (op.CreateTenant? || op.DeleteTenant?)
    ensures tenant in Apply(s, op).0.tenants && Admins(Apply(s, op).0.roles, tenant) != {}
  {
    var u :| u in Admins(s.roles, tenant);
    assert Binding(u, tenant, ADMIN) in MembersOf(s.roles, tenant);
    if op.CreateTenant? {
      if Apply(s, op).0.roles != s.roles { RebindAdmins(s.roles, op.who.value, op.tenant, ADMIN, tenant); }
    } else if MembersOf(s.roles, op.tenant) == {} {
      NoMembersNothingCleared(s.roles, op.tenant);
    }
  }

  lemma DeletionKeepsAdminIff(s: State, op: Op, tenant: string)
    requires OneRole(s.roles) && Admins(s.roles, tenant) != {} && op.DeleteUser?
    ensures Apply(s, op).0.tenants == s.tenants
    ensures Admins(Apply(s, op).0.roles, tenant) != {} <==> !Strands(s, op, tenant)
  {
    CascadeAdmins(s.roles, op.user, tenant);
    assert Admins(s.roles, tenant) - {op.user} == {} <==> Admins(s.roles, tenant) == {op.user};
  }

  /** Exactly one operation loses a tenant that has an admin, or its last admin: deleting the account
      of the only one. Its cascade bypasses the guard. */
  lemma StepKeepsAdminIff(s: State, op: Op, tenant: string)
    requires OneRole(s.roles) && tenant in s.tenants && Admins(s.roles, tenant) != {}
    ensures tenant in Apply(s, op).0.tenants
    ensures Admins(Apply(s, op).0.roles, tenant) != {} <==> !Strands(s, op, tenant)
  {
    match op {
      case Load(_) =>
      case Expire(_) =>
      case CreateUser(_, _, _) =>
      case UpdateUser(_, _, _, _, _) =>
      case SetPassword(_, _, _, _, _) =>
      case DeleteUser(_, _, _) => DeletionKeepsAdminIff(s, op, tenant);
      case AddMember(_, _, _, _) => MemberOpsKeepAdmin(s, op, tenant);
      case UpdateMember(_, _, _, _) => MemberOpsKeepAdmin(s, op, tenant);
      case RemoveMember(_, _, _) => MemberOpsKeepAdmin(s, op, tenant);
      case CreateTenant(_, _, _, _, _, _) => TenantOpsKeepAdmin(s, op, tenant);
      case DeleteTenant(_, _, _, _, _) => TenantOpsKeepAdmin(s, op, tenant);
    }
  }

  /** No operation of the run deletes the account of the user who is then the tenant's only admin. */
  ghost predicate NeverStrands(s: State, ops: seq<Op>, tenant: string)
    requires Valid(s)
    decreases |ops|
  {
    ops == [] ||
    (ApplyKeepsCoherence(s, ops[0]);
     !Strands(s, ops[0], tenant) && NeverStrands(Apply(s, ops[0]).0, ops[1..], tenant))
  }

  /** At every point of the run the tenant exists and has an admin. */
  ghost predicate AlwaysHasAdmin(s: State, ops: seq<Op>, tenant: string)
    requires Valid(s)
    decreases |ops|
  {
    && tenant in s.tenants && Admins(s.roles, tenant) != {}
    && (ops == [] ||
        (ApplyKeepsCoherence(s, ops[0]);
         AlwaysHasAdmin(Apply(s, ops[0]).0, ops[1..], tenant)))
  }

  /** Over every serial run a tenant with an admin stays and always has one, exactly when no step
      deletes the account of its only admin. */
  lemma {:induction false} RunKeepsAdminIff(s: State, ops: seq<Op>, tenant: string)
    requires Valid(s) && tenant in s.tenants && Admins(s.roles, tenant) != {}
    ensures AlwaysHasAdmin(s, ops, tenant) <==> NeverStrands(s, ops, tenant)
    ensures NeverStrands(s, ops, tenant) ==> tenant in Exec(s, ops).tenants && Admins(Exec(s, ops).roles, tenant) != {}
    decreases |ops|
  {
    if ops != [] {
      ApplyKeepsCoherence(s, ops[0]);
      StepKeepsAdminIff(s, ops[0], tenant);
      if !Strands(s, ops[0], tenant) { RunKeepsAdminIff(Apply(s, ops[0]).0, ops[1..], tenant); }
    }
  }

  /** A tenant whose creation succeeded can never be deleted while no deleted account is that of its
      only admin: whatever happens in between, Delete finds a member, refuses, and changes nothing. */
  lemma CreatedTenantCannotBeDeleted(s: State, create: Op, ops: seq<Op>, delete: Op)
    requires Valid(s) && create.CreateTenant? && Apply(s, create).1 == Done
    requires NeverStrands(s, [create] + ops, create.tenant)
    requires delete.DeleteTenant? && delete.tenant == create.tenant
    ensures var t := Exec(s, [create] + ops);
            Apply(t, delete) == (t, Failed(InUse))
  {
    assert ([create] + ops)[1..] == ops;
    ApplyKeepsCoherence(s, create);
    var s1 := Apply(s, create).0;
    RebindAdmins(s.roles, create.who.value, create.tenant, ADMIN, create.tenant);
    RunKeepsAdminIff(s1, ops, create.tenant);
    var t := Exec(s1, ops);
    var u :| u in Admins(t.roles, create.tenant);
    assert Binding(u, create.tenant, ADMIN) in MembersOf(t.roles, create.tenant);
  }

  /** After an account is deleted, Delete can remove a tenant exactly when that account was the
      tenant's only member, if it had any. */
  lemma DeletionOpensTenantIff(s: State, user: string, tenant: string)
    requires Valid(s) && user in s.users && tenant in s.tenants
    ensures var s1 := Apply(s, DeleteUser(user, true, true)).0;
            && OneRole(s1.roles)
            && (Apply(s1, DeleteTenant(tenant, true, true, true, true)).1 == Done <==>
                forall b | b in s.roles && b.tenant == tenant :: b.user == user)
  {
    var left := MembersOf(WithoutUser(s.roles, user), tenant);
    if left != {} {
      var b :| b in left;
      assert b in s.roles && b.user != user;
    } else {
      forall b | b in s.roles && b.tenant == tenant
        ensures b.user == user
      {
        assert b !in left;
      }
    }
  }

  // ---- The services, step by step -------------------------------------------------------------

  class Platform {
    var users: map<string, User>
    var roles: Table
    var tenants: set<string>
    var cache: map<string, Identity>

    constructor (users: map<string, User>, roles: Table, tenants: set<string>)
      requires OneRole(roles)
      ensures Valid(View()) && View() == State(users, roles, tenants, map[])
    {
      this.users, this.roles, this.tenants, cache := users, roles, tenants, map[];
    }

    ghost function View(): State
      reads this
    {
      State(users, roles, tenants, cache)
    }

    /** store.LoadIdentity: the account row, then its bindings row by row. */
    method LoadFresh(user: string) returns (reply: Reply)
      requires OneRole(roles)
      ensures reply == Fresh(users, roles, user)
    {
      if user !in users {
        return Failed(Missing);
      }
      if users[user].disabled {
        return Failed(AccountDisabled);
      }
      var bindings: map<string, string> := map[];
      var todo := set b | b in roles && b.user == user;
      ghost var all := todo;
      while todo != {}
        invariant todo <= all
        invariant forall b | b in all - todo :: b.tenant in bindings && bindings[b.tenant] == b.role
        invariant forall t | t in bindings :: exists b :: b in all - todo && b.tenant == t
      {
        var b :| b in todo;
        bindings := bindings[b.tenant := b.role];
        todo := todo - {b};
        assert b in all - todo;
      }
      assert bindings == BindingsOf(roles, user) by {
        forall b | b in roles && b.user == user
          ensures b.tenant in bindings && bindings[b.tenant] == b.role
        {
          assert b in all - todo;
        }
      }
      var u := users[user];
      reply := Loaded(Identity(user, u.username, u.isSystemAdmin, u.mustChangePassword, bindings));
    }

    method LoadIdentity(user: string) returns (reply: Reply)
      requires Valid(View())
      modifies this`cache
      ensures Valid(View()) && (View(), reply) == Apply(old(View()), Load(user))
      ensures reply == Fresh(users, roles, user)
    {
      ApplyKeepsCoherence(View(), Load(user));
      if user in cache {
        return Loaded(cache[user]);
      }
      reply := LoadFresh(user);
      if reply.Loaded? {
        cache := cache[user := reply.identity];
      }
    }

    method Invalidate(user: string)
      modifies this`cache
      ensures cache == old(cache) - {user}
    {
      cache := cache - {user};
    }

    method OpenAccount(user: string, account: User, dbOk: bool) returns (reply: Reply)
      requires Valid(View())
      modifies this`users
      ensures Valid(View()) && (View(), reply) == Apply(old(View()), CreateUser(user, account, dbOk))
    {
      ApplyKeepsCoherence(View(), CreateUser(user, account, dbOk));
      var taken := set id | id in users && users[id].username == account.username;
      if taken != {} {
        return Failed(Conflict);
      }
      assert forall id | id in users :: id !in taken;
      if !dbOk || user in users {
        return Failed(Internal);
      }
      users := users[user := account];
      return Done;
    }

    method UpdateAccount(user: string, displayName: string, email: string, disabled: Option<bool>, dbOk: bool)
      returns (reply: Reply)
      requires Valid(View())
      modifies this
      ensures Valid(View())
      ensures (View(), reply) == Apply(old(View()), UpdateUser(user, displayName, email, disabled, dbOk))
    {
      ApplyKeepsCoherence(View(), UpdateUser(user, displayName, email, disabled, dbOk));
      if user !in users {
        return Failed(Missing);
      }
      var u := users[user];
      if displayName != "" { u := u.(displayName := displayName); }
      if email != "" { u := u.(email := email); }
      if disabled.Some? { u := u.(disabled := disabled.value); }
      if !dbOk {
        return Failed(Internal);
      }
      users := users[user := u];
      Invalidate(user);
      return Done;
    }

    method DeleteAccount(user: string, revokeOk: bool, dbOk: bool) returns (reply: Reply)
      requires Valid(View())
      modifies this
      ensures Valid(View()) && (View(), reply) == Apply(old(View()), DeleteUser(user, revokeOk, dbOk))
    {
      ApplyKeepsCoherence(View(), DeleteUser(user, revokeOk, dbOk));
      if user !in users {
        return Failed(Missing);
      }
      if !revokeOk || !dbOk {
        return Failed(Internal);
      }
      users := users - {user};
      roles := WithoutUser(roles, user); // foreign-key cascade
      Invalidate(user);
      return Done;
    }

    method ChangePassword(user: string, hash: string, currentOk: bool, dbOk: bool, revokeOk: bool)
      returns (reply: Reply)
      requires Valid(View())
      modifies this
      ensures Valid(View())
      ensures (View(), reply) == Apply(old(View()), SetPassword(user, hash, currentOk, dbOk, revokeOk))
    {
      ApplyKeepsCoherence(View(), SetPassword(user, hash, currentOk, dbOk, revokeOk));
      if user !in users {
        return Failed(Missing);
      }
      if !currentOk {
        return Failed(Invalid);
      }
      if !dbOk {
        return Failed(Internal);
      }
      users := users[user := users[user].(passwordHash := hash, mustChangePassword := false)];
      Invalidate(user);
      if !revokeOk {
        return Failed(Internal);
      }
      return Done;
    }

    method Join(tenant: string, who: Option<string>, role: string, dbOk: bool) returns (reply: Reply)
      requires Valid(View())
      modifies this
      ensures Valid(View()) && (View(), reply) == Apply(old(View()), AddMember(tenant, who, role, dbOk))
    {
      ApplyKeepsCoherence(View(), AddMember(tenant, who, role, dbOk));
      if tenant !in tenants {
        return Failed(Missing);
      }
      if !ValidRole(role) {
        return Failed(Invalid);
      }
      if who.None? || who.value !in users {
        return Failed(Missing);
      }
      if RowsOf(roles, who.value, tenant) != {} {
        return Failed(Conflict);
      }
      if !dbOk {
        return Failed(Internal);
      }
      roles := Rebind(roles, who.value, tenant, role);
      Invalidate(who.value);
      return Done;
    }

    /** UpdateMember, or RemoveMember when the role is empty. */
    method ChangeMember(tenant: string, user: string, role: string, dbOk: bool) returns (reply: Reply)
      requires Valid(View())
      modifies this
      ensures Valid(View())
      ensures (View(), reply) == Apply(old(View()), if role == "" then RemoveMember(tenant, user, dbOk)
                                                    else UpdateMember(tenant, user, role, dbOk))
    {
      ApplyKeepsCoherence(View(), if role == "" then RemoveMember(tenant, user, dbOk)
                                  else UpdateMember(tenant, user, role, dbOk));
      if tenant !in tenants {
        return Failed(Missing);
      }
      if role != "" && !ValidRole(role) {
        return Failed(Invalid);
      }
      if !dbOk {
        return Failed(Internal);
      }
      var outcome := Guard(roles, Admins(roles, tenant), user, tenant, role);
      if outcome != Ok {
        return Failed(MemberError(outcome));
      }
      roles := Rebind(roles, user, tenant, role);
      Invalidate(user);
      if role != "" && user !in users {
        return Failed(Internal);
      }
      return Done;
    }

    /** Create with compensation: the row is rolled back when a later step fails. */
    method OpenTenant(tenant: string, who: Option<string>, rowOk: bool, clusterOk: bool, bindOk: bool, undoOk: bool)
      returns (reply: Reply)
      requires Valid(View())
      modifies this
      ensures Valid(View())
      ensures (View(), reply) == Apply(old(View()), CreateTenant(tenant, who, rowOk, clusterOk, bindOk, undoOk))
    {
      ApplyKeepsCoherence(View(), CreateTenant(tenant, who, rowOk, clusterOk, bindOk, undoOk));
      if who.None? || who.value !in users {
        return Failed(Missing);
      }
      if tenant in tenants {
        return Failed(Conflict);
      }
      if !rowOk {
        return Failed(Internal);
      }
      tenants := tenants + {tenant};
      if !clusterOk || !bindOk {
        if undoOk {
          tenants := tenants - {tenant};
          assert tenants == old(tenants);
        }
        return Failed(Internal);
      }
      roles := Rebind(roles, who.value, tenant, ADMIN);
      Invalidate(who.value);
      return Done;
    }

    method CloseTenant(tenant: string, idle: bool, clusterOk: bool, clearOk: bool, rowOk: bool) returns (reply: Reply)
      requires Valid(View())
      modifies this
      ensures Valid(View())
      ensures (View(), reply) == Apply(old(View()), DeleteTenant(tenant, idle, clusterOk, clearOk, rowOk))
    {
      ApplyKeepsCoherence(View(), DeleteTenant(tenant, idle, clusterOk, clearOk, rowOk));
      if tenant !in tenants {
        return Failed(Missing);
      }
      var n := |MembersOf(roles, tenant)|;
      if n > 0 {
        return Failed(InUse);
      }
      if !idle {
        return Failed(InUse);
      }
      if !clusterOk {
        return Failed(Internal);
      }
      if !clearOk {
        return Failed(Internal);
      }
      roles := WithoutTenant(roles, tenant);
      if !rowOk {
        return Failed(Internal);
      }
      tenants := tenants - {tenant};
      return Done;
    }
  }
}
