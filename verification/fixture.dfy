/** A concrete database in the shape of the test suite's data: users 1 to 8
    (root, ambassador, user, instructor, uta, student, leader, president),
    the six roles with their grants and holders, and `cssg` and `acm` with
    their members. The ids given to `cssg` and `acm` are chosen here.
 */
module Fixture {
  import opened Outcomes
  import opened OrganizationEntity
  import opened UserOrganizationTable
  import opened RoleTables
  import opened Store
  import opened Permission
  import opened UserOrgService
  import opened Scenarios

  const Cssg := Organization(Some(1), "CS+Social Good", "CSSG", "cssg", "", "", "", "", "", "", "", "", "", Open, true)
  const Acm := Organization(Some(2), "ACM at Carolina", "ACM", "acm", "", "", "", "", "", "", "", "", "", Request, true)

  const SuiteDb := Db(
    organizations := [FromModel(Cssg), FromModel(Acm)],
    nextId := 3,
    users := {1, 2, 3, 4, 5, 6, 7, 8},
    members := {Membership(3, 1), Membership(7, 1), Membership(8, 2), Membership(5, 2)},
    roles := map["root" := 1, "ambassadors" := 2, "cssg_leaders" := 3, "acm_leaders" := 4,
                 "cssg_members" := 5, "acm_members" := 6],
    grants := map[
      1 := {Grant("*", "*")},
      2 := {Grant("checkin.create", "checkin"), Grant("coworking.reservation.*", "*")},
      3 := {Grant("organization.update", "organization/cssg"),
            Grant("organization.add_membership", "organization/cssg"),
            Grant("organization.remove_membership", "organization/cssg"),
            Grant("organization.get_all_users", "organization/cssg")},
      4 := {Grant("organization.update", "organization/acm"),
            Grant("organization.add_membership", "organization/acm"),
            Grant("organization.remove_membership", "organization/acm"),
            Grant("organization.get_all_users", "organization/acm")},
      5 := {Grant("organization.get_all_users", "organization/cssg")},
      6 := {Grant("organization.get_all_users", "organization/acm")}],
    assignments := {UserRole(1, 1), UserRole(2, 2), UserRole(7, 3), UserRole(8, 4), UserRole(3, 5), UserRole(5, 6)},
    events := map[],
    articles := map[])

  /** The suite's data meets every store constraint and has the shape of the
      membership scenario, with the leader (7) and the student (6). */
  lemma SuiteDbIsCssgFixture()
    ensures Valid(SuiteDb)
    ensures CssgFixture(SuiteDb, Cssg, 7, 3, 6)
  {
    assert SuiteDb.organizations[0].id == Some(1);
    assert 1 in OrgIds(SuiteDb.organizations);
    assert SuiteDb.roles.Values == {1, 2, 3, 4, 5, 6} by {
      assert SuiteDb.roles["root"] == 1 && SuiteDb.roles["ambassadors"] == 2;
      assert SuiteDb.roles["cssg_leaders"] == 3 && SuiteDb.roles["acm_leaders"] == 4;
      assert SuiteDb.roles["cssg_members"] == 5 && SuiteDb.roles["acm_members"] == 6;
    }
  }

  /** Under the exact-or-wildcard engine, the leader adds the student to
      `cssg` with answer `true`, and the student's own attempt to add the
      ambassador is refused. */
  lemma SuiteAddMembership()
    ensures AddMembership(ExactOrWildcard, SuiteDb, 7, Some(6), Cssg).outcome == Ok(true)
    ensures AddMembership(ExactOrWildcard, SuiteDb, 6, Some(2), Cssg).outcome.PermissionDenied?
  {
    ExactOrWildcardIsWitnessed();
    SuiteDbIsCssgFixture();
    LeaderAddsStudent(ExactOrWildcard, SuiteDb, Cssg, 7, 3, 6);
    StudentCannotAdd(ExactOrWildcard, SuiteDb, Cssg, 7, 3, 6, Some(2));
  }
}
