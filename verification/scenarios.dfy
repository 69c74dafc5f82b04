/** The membership scenario of the test suite, stated for every database
    that has its shape: `cssg` exists; a leader holds a role granting
    `organization.add_membership` and `organization.remove_membership` on
    `organization/cssg`; the `cssg_members` role grants
    `organization.get_all_users` on `organization/cssg`; a student exists and
    holds no role and no membership.
 */
module Scenarios {
  import opened Outcomes
  import opened OrganizationEntity
  import opened UserOrganizationTable
  import opened RoleTables
  import opened Store
  import opened Permission
  import opened UserOrgService
  import opened MembershipProperties

  predicate CssgFixture(db: Db, cssg: Organization, leader: int, leaderRole: int, student: int) {
    && cssg.slug == "cssg" && cssg.id.Some? && cssg.id.value in OrgIds(db.organizations)
    && "cssg_members" in db.roles && db.roles["cssg_members"] in db.grants
    && Grant("organization.get_all_users", "organization/cssg") in db.grants[db.roles["cssg_members"]]
    && UserRole(leader, leaderRole) in db.assignments && leaderRole in db.grants
    && Grant("organization.add_membership", "organization/cssg") in db.grants[leaderRole]
    && Grant("organization.remove_membership", "organization/cssg") in db.grants[leaderRole]
    && leader != student && student in db.users
    && (forall a :: a in db.assignments ==> a.user != student)
    && Membership(student, cssg.id.value) !in db.members
  }

  /** The leader adds the student: the answer is `true` and the student may
      now list the members of `cssg`. */
  lemma LeaderAddsStudent(allows: Allows, db: Db, cssg: Organization, leader: int, leaderRole: int, student: int)
    requires Witnessed(allows) && Valid(db) && CssgFixture(db, cssg, leader, leaderRole, student)
    ensures AddMembership(allows, db, leader, Some(student), cssg).outcome == Ok(true)
    ensures Check(allows, AddMembership(allows, db, leader, Some(student), cssg).db,
                  student, "organization.get_all_users", "organization/cssg")
  {
    assert OrgResource("cssg") == "organization/cssg";
    ExactGrantPermits(allows, db, leader, leaderRole, "organization.add_membership", "organization/cssg");
    assert MemberRoleName("cssg") == Some("cssg_members");
    assert "cssg" + "_members" == "cssg_members";
    JoinGrantsMemberPermissions(allows, db, leader, Some(student), cssg,
                                "organization.get_all_users", "organization/cssg");
  }

  /** The student, holding no role, may not add anyone: the answer is a
      permission denial and not the soft `false`. */
  lemma StudentCannotAdd(allows: Allows, db: Db, cssg: Organization, leader: int, leaderRole: int, student: int, other: Option<int>)
    requires Witnessed(allows) && CssgFixture(db, cssg, leader, leaderRole, student)
    ensures AddMembership(allows, db, student, other, cssg)
         == Reply(PermissionDenied(student, "organization.add_membership", "organization/cssg"), db)
  {
    assert OrgResource("cssg") == "organization/cssg";
    assert HeldGrants(db, student) == {};
    assert Refused[1] == ({}, "organization.add_membership", "organization/cssg");
  }

  /** The leader removes the student again: the answer is `true`, the
      student is no longer listed and may no longer list the members. */
  lemma LeaderRemovesStudent(allows: Allows, db: Db, cssg: Organization, leader: int, leaderRole: int, student: int)
    requires Witnessed(allows) && Valid(db) && CssgFixture(db, cssg, leader, leaderRole, student)
    ensures var db1 := AddMembership(allows, db, leader, Some(student), cssg).db;
      var r := RemoveMembership(allows, db1, leader, Some(student), cssg);
      && r.outcome == Ok(true)
      && !Check(allows, r.db, student, "organization.get_all_users", "organization/cssg")
      && (GetAllUsers(allows, r.db, leader, cssg).Ok? ==> student !in GetAllUsers(allows, r.db, leader, cssg).value)
  {
    LeaderAddsStudent(allows, db, cssg, leader, leaderRole, student);
    var db1 := AddMembership(allows, db, leader, Some(student), cssg).db;
    assert UserRole(leader, leaderRole) in db1.assignments && db1.grants == db.grants;
    ExactGrantPermits(allows, db1, leader, leaderRole, "organization.remove_membership", "organization/cssg");
    assert OrgResource("cssg") == "organization/cssg";
    RemoveUndoesAdd(allows, db, leader, Some(student), cssg);
    var r := RemoveMembership(allows, db1, leader, Some(student), cssg);
    assert r.db == db;
    assert HeldGrants(db, student) == {};
    assert Refused[0] == ({}, "organization.get_all_users", "organization/cssg");
  }
}
