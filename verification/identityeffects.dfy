/** What the account, membership and tenant operations do, as a caller of LoadIdentity sees it
    (identity/service.go, tenant/member.go, tenant/service.go). */
module IdentityEffects {
  import opened Options
  import opened Roles
  import opened IdentityCache

  /** What loading this identity answers. */
  ghost function Answer(s: State, user: string): Reply
    requires OneRole(s.roles)
  {
    Apply(s, Load(user)).1
  }

  lemma AnswerIsFresh(s: State, user: string)
    requires Valid(s)
    ensures Answer(s, user) == Fresh(s.users, s.roles, user)
  {
  }

  /** The same answer with these bindings. */
  function WithBindings(r: Reply, bindings: map<string, string>): Reply {
    if r.Loaded? then Loaded(r.identity.(bindings := bindings)) else r
  }

  // ---- Whom an operation concerns -------------------------------------------------------------------

  /** The user the operation is about. */
  predicate Concerns(op: Op, user: string) {
    match op
    case CreateUser(u, _, _) => u == user
    case UpdateUser(u, _, _, _, _) => u == user
    case DeleteUser(u, _, _) => u == user
    case SetPassword(u, _, _, _, _) => u == user
    case AddMember(_, who, _, _) => who == Some(user)
    case UpdateMember(_, u, _, _) => u == user
    case RemoveMember(_, u, _) => u == user
    case CreateTenant(_, who, _, _, _, _) => who == Some(user)
    case _ => false
  }

  lemma SameAnswer(s: State, s': State, user: string)
    requires Valid(s) && Valid(s')
    requires (user in s.users <==> user in s'.users) && (user in s.users ==> s.users[user] == s'.users[user])
    requires forall b: Binding | b.user == user :: b in s.roles <==> b in s'.roles
    ensures Answer(s', user) == Answer(s, user)
  {
    AnswerIsFresh(s, user);
    AnswerIsFresh(s', user);
    SameBindings(s.roles, s'.roles, user);
  }

  lemma RowsOfOthersStay(s: State, op: Op, user: string)
    requires Valid(s) && !Concerns(op, user)
    ensures var s' := Apply(s, op).0;
            && (user in s.users <==> user in s'.users) && (user in s.users ==> s.users[user] == s'.users[user])
            && forall b: Binding | b.user == user :: b in s.roles <==> b in s'.roles
  {
    if op.DeleteTenant? && MembersOf(s.roles, op.tenant) == {} { NoMembersNothingCleared(s.roles, op.tenant); }
  }

  /** Every operation leaves the answers for everybody else as they were. */
  lemma OthersAnswerTheSame(s: State, op: Op, user: string)
    requires Valid(s) && !Concerns(op, user)
    ensures Valid(Apply(s, op).0) && Answer(Apply(s, op).0, user) == Answer(s, user)
  {
    ApplyKeepsCoherence(s, op);
    RowsOfOthersStay(s, op, user);
    SameAnswer(s, Apply(s, op).0, user);
  }

  /** A refused or failed operation changes no answer at all, except a password change whose sessions
      could not be revoked: that one has taken effect. */
  lemma FailureChangesNothing(s: State, op: Op, user: string)
    requires Valid(s) && Apply(s, op).1.Failed? && !(op.SetPassword? && op.dbOk)
    ensures Valid(Apply(s, op).0) && Answer(Apply(s, op).0, user) == Answer(s, user)
  {
    ApplyKeepsCoherence(s, op);
    if !Concerns(op, user) {
      OthersAnswerTheSame(s, op, user);
    } else if op.UpdateMember? && user !in s.users {
      AnswerIsFresh(s, user);
      AnswerIsFresh(Apply(s, op).0, user);
    } else {
      SameAnswer(s, Apply(s, op).0, user);
    }
  }

  // ---- Memberships ------------------------------------------------------------------------------------

  lemma ReboundBindings(roles: Table, user: string, tenant: string, role: string)
    requires OneRole(roles)
    ensures OneRole(Rebind(roles, user, tenant, role))
    ensures BindingsOf(Rebind(roles, user, tenant, role), user) ==
            if role == "" then BindingsOf(roles, user) - {tenant} else BindingsOf(roles, user)[tenant := role]
  {
    RebindOneRole(roles, user, tenant, role);
    var rows' := Rebind(roles, user, tenant, role);
    var m, m' := BindingsOf(roles, user), BindingsOf(rows', user);
    forall t
      ensures t in m' <==> if t == tenant then role != "" else t in m
      ensures t in m' ==> m'[t] == if t == tenant then role else m[t]
    {
      if t in m' {
        var b :| b in rows' && b.user == user && b.tenant == t;
        if t != tenant { assert b in roles; }
      }
      if t == tenant && role != "" { assert Binding(user, tenant, role) in rows'; }
      if t != tenant && t in m {
        var b :| b in roles && b.user == user && b.tenant == t;
        assert b in rows';
      }
    }
  }

  lemma RebindAnswers(s: State, s': State, user: string, tenant: string, role: string)
    requires Valid(s) && Valid(s') && s'.users == s.users && s'.roles == Rebind(s.roles, user, tenant, role)
    ensures Answer(s, user).Loaded? <==> Answer(s', user).Loaded?
    ensures Answer(s', user) ==
            if Answer(s, user).Loaded? then
              WithBindings(Answer(s, user),
                           if role == "" then Answer(s, user).identity.bindings - {tenant}
                           else Answer(s, user).identity.bindings[tenant := role])
            else Answer(s, user)
  {
    ReboundBindings(s.roles, user, tenant, role);
    AnswerIsFresh(s, user);
    AnswerIsFresh(s', user);
  }

  /** Membership, as the bindings of a load show it. */
  lemma MemberIff(s: State, user: string, tenant: string)
    requires OneRole(s.roles)
    ensures RowsOf(s.roles, user, tenant) == {} <==> tenant !in BindingsOf(s.roles, user)
  {
    if tenant in BindingsOf(s.roles, user) {
      var b :| b in s.roles && b.user == user && b.tenant == tenant;
      assert b in RowsOf(s.roles, user, tenant);
    }
    if b :| b in RowsOf(s.roles, user, tenant) { assert b.tenant in BindingsOf(s.roles, user); }
  }

  /** AddMember: exactly an existing account that is not a member of an existing tenant can be added, as
      an admin or a user, and then its loads show exactly the requested role besides what they showed. */
  lemma AddedMember(s: State, op: Op)
    requires Valid(s) && op.AddMember?
    ensures Apply(s, op).1 == Done <==>
            && op.tenant in s.tenants && op.role in ["tenant-admin", "user"] && op.dbOk
            && op.who.Some? && op.who.value in s.users && op.tenant !in BindingsOf(s.roles, op.who.value)
    ensures Valid(Apply(s, op).0)
    ensures Apply(s, op).1 == Done ==>
              var user := op.who.value;
              Answer(Apply(s, op).0, user) ==
                if Answer(s, user).Loaded? then WithBindings(Answer(s, user), Answer(s, user).identity.bindings[op.tenant := op.role])
                else Answer(s, user)
  {
    ApplyKeepsCoherence(s, op);
    if op.who.Some? { MemberIff(s, op.who.value, op.tenant); }
    if Apply(s, op).1 == Done { RebindAnswers(s, Apply(s, op).0, op.who.value, op.tenant, op.role); }
  }

  /** UpdateMember and RemoveMember: only members of existing tenants, never the last admin away; then
      exactly this binding changes, to the requested role, or goes. */
  lemma ChangedMember(s: State, op: Op)
    requires Valid(s) && (op.UpdateMember? || op.RemoveMember?)
    ensures Valid(Apply(s, op).0)
    ensures Apply(s, op).1 == Done ==>
              && op.tenant in s.tenants && op.dbOk && op.tenant in BindingsOf(s.roles, op.user)
              && (op.UpdateMember? ==> op.role in ["tenant-admin", "user"])
              && Answer(Apply(s, op).0, op.user) ==
                   if Answer(s, op.user).Loaded? then
                     WithBindings(Answer(s, op.user),
                                  if op.RemoveMember? then Answer(s, op.user).identity.bindings - {op.tenant}
                                  else Answer(s, op.user).identity.bindings[op.tenant := op.role])
                   else Answer(s, op.user)
  {
    ApplyKeepsCoherence(s, op);
    MemberIff(s, op.user, op.tenant);
    if Apply(s, op).1 == Done {
      RebindAnswers(s, Apply(s, op).0, op.user, op.tenant, if op.RemoveMember? then "" else op.role);
    }
  }

  lemma GuardRefusesIff(roles: Table, user: string, tenant: string, role: string)
    ensures Guard(roles, Admins(roles, tenant), user, tenant, role) == LastTenantAdmin <==>
            Admins(roles, tenant) == {user} && role != ADMIN
  {
    SerialGuard(roles, user, tenant, role);
    RebindAdmins(roles, user, tenant, role, tenant);
  }

  /** Exactly when a member of an existing tenant is not changed: the change would leave no admin. */
  lemma ChangeRefusedIff(s: State, op: Op)
    requires Valid(s) && (op.UpdateMember? || op.RemoveMember?) && op.tenant in s.tenants && op.dbOk
    requires op.UpdateMember? ==> op.role in ["tenant-admin", "user"]
    ensures Apply(s, op).1 == Failed(Missing) <==> op.tenant !in BindingsOf(s.roles, op.user)
    ensures Apply(s, op).1 == Failed(LastAdmin) <==>
            Admins(s.roles, op.tenant) == {op.user} && (op.RemoveMember? || op.role != "tenant-admin")
  {
    MemberIff(s, op.user, op.tenant);
    GuardRefusesIff(s.roles, op.user, op.tenant, if op.RemoveMember? then "" else op.role);
  }

  // ---- Accounts ------------------------------------------------------------------------------------------

  /** CreateUser: a free username; then the account loads as it was given. */
  lemma CreatedUser(s: State, op: Op)
    requires Valid(s) && op.CreateUser?
    ensures Apply(s, op).1 == Done <==>
            op.dbOk && op.user !in s.users && forall id | id in s.users :: s.users[id].username != op.account.username
    ensures Valid(Apply(s, op).0)
    ensures Apply(s, op).1 == Done ==>
              && Apply(s, op).0.users == s.users[op.user := op.account]
              && Answer(Apply(s, op).0, op.user) ==
                   if op.account.disabled then Failed(AccountDisabled)
                   else Loaded(Identity(op.user, op.account.username, op.account.isSystemAdmin, op.account.mustChangePassword,
                                        BindingsOf(s.roles, op.user)))
  {
    ApplyKeepsCoherence(s, op);
    AnswerIsFresh(Apply(s, op).0, op.user);
  }

  /** UpdateUser: disabling makes every load fail, enabling makes it succeed again, and leaving it alone
      leaves the answer alone; names and mail change only where given, and nothing else of the account. */
  lemma UpdatedUser(s: State, op: Op)
    requires Valid(s) && op.UpdateUser?
    ensures Apply(s, op).1 == Done <==> op.user in s.users && op.dbOk
    ensures Valid(Apply(s, op).0)
    ensures Apply(s, op).1 == Done ==>
              && (op.disabled == Some(true) ==> Answer(Apply(s, op).0, op.user) == Failed(AccountDisabled))
              && (op.disabled == Some(false) ==>
                    && Answer(Apply(s, op).0, op.user).Loaded?
                    && (Answer(s, op.user).Loaded? ==> Answer(Apply(s, op).0, op.user) == Answer(s, op.user)))
              && (op.disabled == None ==> Answer(Apply(s, op).0, op.user) == Answer(s, op.user))
    ensures Apply(s, op).1 == Done ==>
              var before, after := s.users[op.user], Apply(s, op).0.users[op.user];
              && after.username == before.username && after.passwordHash == before.passwordHash
              && after.isSystemAdmin == before.isSystemAdmin && after.mustChangePassword == before.mustChangePassword
              && after.displayName == (if op.displayName == "" then before.displayName else op.displayName)
              && after.email == (if op.email == "" then before.email else op.email)
  {
    ApplyKeepsCoherence(s, op);
    AnswerIsFresh(s, op.user);
    AnswerIsFresh(Apply(s, op).0, op.user);
  }

  /** DeleteUser: exactly after the sessions are revoked; then the account is missing and so are its
      bindings. */
  lemma DeletedUser(s: State, op: Op)
    requires Valid(s) && op.DeleteUser?
    ensures Apply(s, op).1 == Done <==> op.user in s.users && op.revokeOk && op.dbOk
    ensures Valid(Apply(s, op).0)
    ensures Apply(s, op).1 == Done ==>
              Answer(Apply(s, op).0, op.user) == Failed(Missing) && BindingsOf(Apply(s, op).0.roles, op.user) == map[]
  {
    ApplyKeepsCoherence(s, op);
    AnswerIsFresh(Apply(s, op).0, op.user);
  }

  /** SetPassword: the current password must be right; then the hash is the new one, and all a load
      notices is that the password need not be changed any more. */
  lemma ChangedPassword(s: State, op: Op)
    requires Valid(s) && op.SetPassword?
    ensures Apply(s, op).1 == Done <==> op.user in s.users && op.currentOk && op.dbOk && op.revokeOk
    ensures Valid(Apply(s, op).0)
    ensures op.user in s.users && op.currentOk && op.dbOk ==>
              && Apply(s, op).0.users[op.user] == s.users[op.user].(passwordHash := op.hash, mustChangePassword := false)
              && Answer(Apply(s, op).0, op.user) ==
                   if Answer(s, op.user).Loaded? then Loaded(Answer(s, op.user).identity.(mustChangePassword := false))
                   else Answer(s, op.user)
  {
    ApplyKeepsCoherence(s, op);
    AnswerIsFresh(s, op.user);
    AnswerIsFresh(Apply(s, op).0, op.user);
  }

  // ---- Tenants ---------------------------------------------------------------------------------------------

  /** Create: a free identifier and an existing owner, whose loads then show it as the tenant's admin. */
  lemma CreatedTenant(s: State, op: Op)
    requires Valid(s) && op.CreateTenant?
    ensures Apply(s, op).1 == Done <==>
            && op.who.Some? && op.who.value in s.users && op.tenant !in s.tenants
            && op.rowOk && op.clusterOk && op.bindOk
    ensures Valid(Apply(s, op).0)
    ensures Apply(s, op).1 == Done ==>
              && Apply(s, op).0.tenants == s.tenants + {op.tenant}
              && Answer(Apply(s, op).0, op.who.value) ==
                   if Answer(s, op.who.value).Loaded? then
                     WithBindings(Answer(s, op.who.value), Answer(s, op.who.value).identity.bindings[op.tenant := "tenant-admin"])
                   else Answer(s, op.who.value)
    ensures Apply(s, op).1 != Done ==> Apply(s, op).0.tenants <= s.tenants + {op.tenant} && s.tenants <= Apply(s, op).0.tenants
    ensures Apply(s, op).1 != Done && op.undoOk ==> Apply(s, op).0 == s
  {
    ApplyKeepsCoherence(s, op);
    if Apply(s, op).1 == Done { RebindAnswers(s, Apply(s, op).0, op.who.value, op.tenant, ADMIN); }
  }

  /** Delete: exactly a tenant without members and active workloads; then it is gone and nothing else. */
  lemma DeletedTenant(s: State, op: Op)
    requires Valid(s) && op.DeleteTenant?
    ensures Apply(s, op).1 == Done <==>
            && op.tenant in s.tenants && (forall b | b in s.roles :: b.tenant != op.tenant)
            && op.idle && op.clusterOk && op.clearOk && op.rowOk
    ensures Apply(s, op).0.users == s.users && Apply(s, op).0.roles == s.roles
    ensures Apply(s, op).0.tenants == if Apply(s, op).1 == Done then s.tenants - {op.tenant} else s.tenants
  {
    if MembersOf(s.roles, op.tenant) == {} {
      NoMembersNothingCleared(s.roles, op.tenant);
      assert forall b | b in s.roles :: b !in MembersOf(s.roles, op.tenant);
    } else {
      var b :| b in MembersOf(s.roles, op.tenant);
    }
  }
}
