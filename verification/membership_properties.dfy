/** Properties of the membership coordinator: the membership pair and the
    member-role assignment move together, a removal undoes an addition, and
    joining or leaving changes what the permission engine grants.
 */
module MembershipProperties {
  import opened Outcomes
  import opened OrganizationEntity
  import opened UserOrganizationTable
  import opened RoleTables
  import opened Store
  import opened Permission
  import opened OrganizationService
  import opened UserOrgService

  /** `add_membership` keeps every constraint of the store. */
  lemma AddMembershipPreservesValid(allows: Allows, db: Db, subject: int, user: Option<int>, organization: Organization)
    requires Valid(db)
    ensures Valid(AddMembership(allows, db, subject, user, organization).db)
  {
  }

  /** `remove_membership` keeps every constraint of the store. */
  lemma RemoveMembershipPreservesValid(allows: Allows, db: Db, subject: int, user: Option<int>, organization: Organization)
    requires Valid(db)
    ensures Valid(RemoveMembership(allows, db, subject, user, organization).db)
  {
  }

  /** Membership and role assignment change together or not at all: after
      `add_membership` either both tables grew by exactly one row or neither
      changed. */
  lemma AddCouplesTables(allows: Allows, db: Db, subject: int, user: Option<int>, organization: Organization)
    ensures var db' := AddMembership(allows, db, subject, user, organization).db;
      (db'.members == db.members) <==> (db'.assignments == db.assignments)
    ensures var db' := AddMembership(allows, db, subject, user, organization).db;
      db'.members != db.members ==>
        |db'.members| == |db.members| + 1 && |db'.assignments| == |db.assignments| + 1
  {
    var r := AddMembership(allows, db, subject, user, organization);
    if r.outcome == Ok(true) {
      var pair := Membership(user.value, organization.id.value);
      var role := UserRole(user.value, db.roles[organization.slug + "_members"]);
      assert pair !in db.members && pair in r.db.members;
      assert role !in db.assignments && role in r.db.assignments;
    }
  }

  /** Adding the same user twice: the second call answers the soft `false`
      and writes nothing, so the member count is unchanged. */
  lemma AddTwiceIsSoftFalse(allows: Allows, db: Db, subject: int, user: Option<int>, organization: Organization)
    requires AddMembership(allows, db, subject, user, organization).outcome == Ok(true)
    requires var db' := AddMembership(allows, db, subject, user, organization).db;
      Check(allows, db', subject, "organization.add_membership", OrgResource(organization.slug))
    ensures var db' := AddMembership(allows, db, subject, user, organization).db;
      AddMembership(allows, db', subject, user, organization) == Reply(Ok(false), db')
      && MembersOf(db'.members, organization.id) == MembersOf(db.members, organization.id) + {user.value}
  {
    var db' := AddMembership(allows, db, subject, user, organization).db;
    assert Membership(user.value, organization.id.value) in db'.members;
    assert !CanJoin(db', user.value, organization);
  }

  /** Removing a membership right after adding it restores the state exactly:
      `remove_membership` is the inverse of a successful `add_membership`. */
  lemma RemoveUndoesAdd(allows: Allows, db: Db, subject: int, user: Option<int>, organization: Organization)
    requires AddMembership(allows, db, subject, user, organization).outcome == Ok(true)
    requires var db' := AddMembership(allows, db, subject, user, organization).db;
      Check(allows, db', subject, "organization.remove_membership", OrgResource(organization.slug))
    ensures var db' := AddMembership(allows, db, subject, user, organization).db;
      RemoveMembership(allows, db', subject, user, organization) == Reply(Ok(true), db)
  {
    var db' := AddMembership(allows, db, subject, user, organization).db;
    var pair := Membership(user.value, organization.id.value);
    var role := UserRole(user.value, db.roles[organization.slug + "_members"]);
    assert pair !in db.members && role !in db.assignments;
    assert db'.roles == db.roles;
    var r := RemoveMembership(allows, db', subject, user, organization);
    assert r.outcome == Ok(true);
    assert r.db.members == db'.members - {pair} == db.members;
    assert r.db.assignments == db'.assignments - {role} == db.assignments;
  }

  /** Joining an organization grants the new member every permission of the
      organization's member role. */
  lemma JoinGrantsMemberPermissions(allows: Allows, db: Db, subject: int, user: Option<int>,
                                    organization: Organization, action: string, resource: string)
    requires Witnessed(allows)
    requires AddMembership(allows, db, subject, user, organization).outcome == Ok(true)
    requires var role := db.roles[organization.slug + "_members"];
      role in db.grants && Grant(action, resource) in db.grants[role]
    ensures Check(allows, AddMembership(allows, db, subject, user, organization).db, user.value, action, resource)
  {
    var db' := AddMembership(allows, db, subject, user, organization).db;
    var role := db.roles[organization.slug + "_members"];
    assert UserRole(user.value, role) in db'.assignments;
    ExactGrantPermits(allows, db', user.value, role, action, resource);
  }

  /** Leaving an organization whose member role was the user's only role
      leaves the user with no grants at all. */
  lemma LeavingSoleRoleRevokesAll(allows: Allows, db: Db, subject: int, user: Option<int>, organization: Organization)
    requires RemoveMembership(allows, db, subject, user, organization).outcome == Ok(true)
    requires forall a :: a in db.assignments && a.user == user.value ==>
      a.role == db.roles[organization.slug + "_members"]
    ensures HeldGrants(RemoveMembership(allows, db, subject, user, organization).db, user.value) == {}
  {
  }

  /** A user who is not in the membership relation is not listed by
      `get_all_users`. */
  lemma NonMemberNotListed(allows: Allows, db: Db, subject: int, organization: Organization, user: int)
    requires GetAllUsers(allows, db, subject, organization).Ok?
    requires organization.id.Some? ==> Membership(user, organization.id.value) !in db.members
    ensures user !in GetAllUsers(allows, db, subject, organization).value
  {
  }

  /** After a successful `add_membership` the new member is listed by
      `get_all_users` for anyone allowed to list. */
  lemma JoinedMemberListed(allows: Allows, db: Db, subject: int, user: Option<int>, organization: Organization, viewer: int)
    requires AddMembership(allows, db, subject, user, organization).outcome == Ok(true)
    requires GetAllUsers(allows, AddMembership(allows, db, subject, user, organization).db, viewer, organization).Ok?
    ensures user.value in GetAllUsers(allows, AddMembership(allows, db, subject, user, organization).db, viewer, organization).value
  {
  }

  /** Leadership is exactly the right to update: `is_leader` holds precisely
      when `update` by the same subject would not be refused. */
  lemma LeaderIffUpdatePermitted(allows: Allows, db: Db, subject: int, organization: Organization)
    ensures IsLeader(allows, db, subject, organization)
        <==> !Update(allows, db, subject, organization).outcome.PermissionDenied?
  {
  }
}
