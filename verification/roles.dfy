/** Tenant membership bindings (store/roles.go) and the last-admin guard, one transaction at a
    time. */
module Roles {

  const ADMIN := "tenant-admin"

  /** One user_roles row; (user, tenant, role) is the table's primary key. */
  datatype Binding = Binding(user: string, tenant: string, role: string)

  type Table = set<Binding>

  datatype Outcome = Ok | NotFound | LastTenantAdmin

  function RowsOf(rows: Table, user: string, tenant: string): Table {
    set b | b in rows && b.user == user && b.tenant == tenant
  }

  /** The users the guard's locking read returns. */
  function Admins(rows: Table, tenant: string): set<string> {
    set b | b in rows && b.tenant == tenant && b.role == ADMIN :: b.user
  }

  /** Delete-then-create of Set and GuardedSet; the empty role is GuardedRemove's deletion. */
  function Rebind(rows: Table, user: string, tenant: string, role: string): Table {
    rows - RowsOf(rows, user, tenant) + (if role == "" then {} else {Binding(user, tenant, role)})
  }

  /** A (user, tenant) pair holds at most one role. The primary key would allow several; every write
      below leaves at most one. */
  ghost predicate OneRole(rows: Table) {
    forall b, c | b in rows && c in rows && b.user == c.user && b.tenant == c.tenant :: b.role == c.role
  }

  lemma RebindOneRole(rows: Table, user: string, tenant: string, role: string)
    requires OneRole(rows)
    ensures OneRole(Rebind(rows, user, tenant, role))
    ensures forall b: Binding | b.user != user :: b in rows <==> b in Rebind(rows, user, tenant, role)
  {
  }

  /** guardLastAdminTx on the admin users its locking read saw, for a pair with at most one row. */
  function Guard(rows: Table, seen: set<string>, user: string, tenant: string, role: string): Outcome {
    if RowsOf(rows, user, tenant) == {} then NotFound
    else if Binding(user, tenant, ADMIN) in rows && role != ADMIN && |seen| <= 1 then LastTenantAdmin
    else Ok
  }

  class RoleRepo {
    var rows: Table

    constructor (rows: Table)
      ensures this.rows == rows
    {
      this.rows := rows;
    }

    /** Replaces the pair's binding: afterwards the pair holds exactly this role. */
    method Set(user: string, tenant: string, role: string)
      requires role != ""
      modifies this
      ensures rows == Rebind(old(rows), user, tenant, role) && (old(OneRole(rows)) ==> OneRole(rows))
      ensures RowsOf(rows, user, tenant) == {Binding(user, tenant, role)}
    {
      if OneRole(rows) { RebindOneRole(rows, user, tenant, role); }
      Replace(user, tenant, role);
    }

    /** Delete, then create unless the role is empty. */
    method Replace(user: string, tenant: string, role: string)
      modifies this
      ensures rows == Rebind(old(rows), user, tenant, role)
    {
      rows := rows - RowsOf(rows, user, tenant);
      if role != "" {
        rows := rows + {Binding(user, tenant, role)};
      }
    }

    /** guardLastAdminTx: the locked admin rows, then whichever row of the pair is read first. */
    method GuardLastAdmin(user: string, tenant: string, role: string) returns (outcome: Outcome)
      requires OneRole(rows)
      ensures outcome == Guard(rows, Admins(rows, tenant), user, tenant, role)
    {
      var admins, pair := Admins(rows, tenant), RowsOf(rows, user, tenant);
      if pair == {} {
        return NotFound;
      }
      var cur :| cur in pair;
      var demotingAdmin := cur.role == ADMIN && role != ADMIN;
      return if demotingAdmin && |admins| <= 1 then LastTenantAdmin else Ok;
    }

    /** Changes an existing member's role, or removes it when the role is empty. On its own, it
        refuses exactly the missing member and the change that would leave the tenant without
        an admin, and a refusal changes nothing. */
    method GuardedSet(user: string, tenant: string, role: string) returns (outcome: Outcome)
      requires OneRole(rows)
      modifies this
      ensures OneRole(rows)
      ensures rows == if outcome == Ok then Rebind(old(rows), user, tenant, role) else old(rows)
      ensures outcome == NotFound <==> RowsOf(old(rows), user, tenant) == {}
      ensures outcome == LastTenantAdmin <==>
              Admins(old(rows), tenant) == {user} && Admins(Rebind(old(rows), user, tenant, role), tenant) == {}
      ensures Admins(old(rows), tenant) != {} ==> Admins(rows, tenant) != {}
    {
      SerialGuard(rows, user, tenant, role);
      RebindOneRole(rows, user, tenant, role);
      outcome := GuardLastAdmin(user, tenant, role);
      if outcome == Ok {
        Replace(user, tenant, role);
      }
    }
  }

  lemma RebindAdmins(rows: Table, user: string, tenant: string, role: string, t: string)
    ensures Admins(Rebind(rows, user, tenant, role), t) ==
            if t != tenant then Admins(rows, t)
            else if role == ADMIN then Admins(rows, t) + {user} else Admins(rows, t) - {user}
  {
    var rows' := Rebind(rows, user, tenant, role);
    forall u
      ensures u in Admins(rows', t) <==> Binding(u, t, ADMIN) in rows'
      ensures u in Admins(rows, t) <==> Binding(u, t, ADMIN) in rows
    {
      if Binding(u, t, ADMIN) in rows' { assert u in Admins(rows', t); }
      if Binding(u, t, ADMIN) in rows { assert u in Admins(rows, t); }
    }
  }

  lemma {:induction false} SingletonBySize<T>(s: set<T>, x: T)
    requires x in s
    ensures |s| <= 1 <==> s == {x}
  {
    assert |s - {x}| == |s| - 1;
    if |s| <= 1 { assert s - {x} == {}; }
  }

  /** Run alone, the guard refuses exactly the changes that would empty the admin set. */
  lemma SerialGuard(rows: Table, user: string, tenant: string, role: string)
    ensures var g := Guard(rows, Admins(rows, tenant), user, tenant, role);
            var after := Admins(Rebind(rows, user, tenant, role), tenant);
            && (g == LastTenantAdmin <==> Admins(rows, tenant) == {user} && after == {})
            && (g == Ok && Admins(rows, tenant) != {} ==> after != {})
  {
    RebindAdmins(rows, user, tenant, role, tenant);
    var admins := Admins(rows, tenant);
    if Binding(user, tenant, ADMIN) in rows {
      assert user in admins && Binding(user, tenant, ADMIN) in RowsOf(rows, user, tenant);
      SingletonBySize(admins, user);
    } else {
      assert user !in admins;
    }
  }
}
