/** `UserOrgService`: lists members, derives leadership from the permission
    engine, and adds or removes a membership together with the matching
    member-role assignment.

    Two failure channels stay apart. A permission denial is raised before
    anything else and reaches the caller. Every store error after that (a
    duplicate pair, a dangling key, a slug with no member role, a member role
    that does not exist) is caught, both writes are rolled back, and the
    answer is `Ok(false)`.
 */
module UserOrgService {
  import opened Outcomes
  import opened OrganizationEntity
  import opened UserOrganizationTable
  import opened RoleTables
  import opened Store
  import opened Permission

  /** The role a member of an organization is given: only `cssg` and `acm`
      have one. Any other slug leaves the member role unbound, which the
      source turns into a caught error. */
  function MemberRoleName(slug: string): (r: Option<string>)
    ensures r.Some? <==> slug == "cssg" || slug == "acm"
    ensures r.Some? ==> r.value == slug + "_members"
  {
    if slug == "cssg" then Some("cssg_members")
    else if slug == "acm" then Some("acm_members")
    else None
  }

  /** `get_all_users(subject, organization)`: gated by a permission scoped to
      the organization's slug; then every existing user paired with the
      organization's id. */
  function GetAllUsers(allows: Allows, db: Db, subject: int, organization: Organization): (r: Outcome<set<int>>)
    ensures r.PermissionDenied? <==>
              !Check(allows, db, subject, "organization.get_all_users", OrgResource(organization.slug))
    ensures r.PermissionDenied? ==>
              r == PermissionDenied(subject, "organization.get_all_users", OrgResource(organization.slug))
    ensures r.Ok? || r.PermissionDenied?
    ensures r.Ok? ==> forall u :: u in r.value <==>
              u in db.users && organization.id.Some? && Membership(u, organization.id.value) in db.members
  {
    var gate := Enforce(allows, db, subject, "organization.get_all_users", OrgResource(organization.slug));
    if !gate.Ok? then PermissionDenied(subject, "organization.get_all_users", OrgResource(organization.slug))
    else Ok(MembersOf(db.members, organization.id) * db.users)
  }

  /** `is_leader(subject, organization)`: leadership is not stored; a leader
      is whoever may update the organization. Under the witnessed engine a
      holder of the `(*, *)` grant leads every organization, and a subject
      with no role leads no `cssg`. */
  function IsLeader(allows: Allows, db: Db, subject: int, organization: Organization): (leader: bool)
    ensures Witnessed(allows)
            && (exists role :: UserRole(subject, role) in db.assignments
                                && role in db.grants && Grant("*", "*") in db.grants[role])
            ==> leader
    ensures Witnessed(allows) && organization.slug == "cssg"
            && (forall a :: a in db.assignments ==> a.user != subject)
            ==> !leader
  {
    assert Refused[2] == ({}, "organization.update", "organization/cssg");
    assert organization.slug == "cssg" ==> OrgResource(organization.slug) == "organization/cssg";
    Check(allows, db, subject, "organization.update", OrgResource(organization.slug))
  }

  /** Everything `add_membership` needs for both inserts to go through. */
  predicate CanJoin(db: Db, user: int, organization: Organization) {
    && organization.id.Some?
    && Membership(user, organization.id.value) !in db.members
    && user in db.users
    && organization.id.value in OrgIds(db.organizations)
    && MemberRoleName(organization.slug).Some?
    && MemberRoleName(organization.slug).value in db.roles
    && UserRole(user, db.roles[MemberRoleName(organization.slug).value]) !in db.assignments
  }

  /** `add_membership(subject, user, organization)`. */
  function AddMembership(allows: Allows, db: Db, subject: int, user: Option<int>, organization: Organization): (r: Reply<bool>)
    ensures r.outcome.Ok? || r.outcome.PermissionDenied?
    ensures r.outcome.PermissionDenied? <==>
              !Check(allows, db, subject, "organization.add_membership", OrgResource(organization.slug))
    ensures r.outcome.PermissionDenied? ==>
              r.outcome == PermissionDenied(subject, "organization.add_membership", OrgResource(organization.slug))
    ensures r.outcome == Ok(true) <==>
              Check(allows, db, subject, "organization.add_membership", OrgResource(organization.slug))
              && user.Some? && CanJoin(db, user.value, organization)
    ensures r.outcome != Ok(true) ==> r.db == db
    ensures r.outcome == Ok(true) ==>
              r.db == db.(members := db.members + {Membership(user.value, organization.id.value)},
                          assignments := db.assignments
                            + {UserRole(user.value, db.roles[organization.slug + "_members"])})
  {
    var gate := Enforce(allows, db, subject, "organization.add_membership", OrgResource(organization.slug));
    if !gate.Ok? then
      Reply(PermissionDenied(subject, "organization.add_membership", OrgResource(organization.slug)), db)
    else if user.None? then Reply(Ok(false), db)
    else
      match Insert(db.members, db.users, OrgIds(db.organizations), user.value, organization.id)
      case None => Reply(Ok(false), db)
      case Some(members) =>
        match MemberRoleName(organization.slug)
        case None => Reply(Ok(false), db)
        case Some(name) =>
          if name !in db.roles then Reply(Ok(false), db)
          else
            match Assign(db.assignments, db.users, db.roles.Values, user.value, db.roles[name])
            case None => Reply(Ok(false), db)
            case Some(assignments) => Reply(Ok(true), db.(members := members, assignments := assignments))
  }

  /** `remove_membership(subject, user, organization)`. Deleting a pair that
      is not there is not an error, so the answer is `true` whenever the
      member role resolves, member or not. */
  function RemoveMembership(allows: Allows, db: Db, subject: int, user: Option<int>, organization: Organization): (r: Reply<bool>)
    ensures r.outcome.Ok? || r.outcome.PermissionDenied?
    ensures r.outcome.PermissionDenied? <==>
              !Check(allows, db, subject, "organization.remove_membership", OrgResource(organization.slug))
    ensures r.outcome.PermissionDenied? ==>
              r.outcome == PermissionDenied(subject, "organization.remove_membership", OrgResource(organization.slug))
    ensures r.outcome == Ok(true) <==>
              Check(allows, db, subject, "organization.remove_membership", OrgResource(organization.slug))
              && user.Some? && MemberRoleName(organization.slug).Some?
              && MemberRoleName(organization.slug).value in db.roles
    ensures r.outcome != Ok(true) ==> r.db == db
    ensures r.outcome == Ok(true) ==>
              && (organization.id.Some? ==> Membership(user.value, organization.id.value) !in r.db.members)
              && UserRole(user.value, db.roles[organization.slug + "_members"]) !in r.db.assignments
              && (forall p :: p in db.members && p !in r.db.members ==>
                    organization.id == Some(p.organization) && p.user == user.value)
              && (forall a :: a in db.assignments && a !in r.db.assignments ==>
                    a == UserRole(user.value, db.roles[organization.slug + "_members"]))
              && r.db.members <= db.members && r.db.assignments <= db.assignments
              && r.db == db.(members := r.db.members, assignments := r.db.assignments)
  {
    var gate := Enforce(allows, db, subject, "organization.remove_membership", OrgResource(organization.slug));
    if !gate.Ok? then
      Reply(PermissionDenied(subject, "organization.remove_membership", OrgResource(organization.slug)), db)
    else if user.None? then Reply(Ok(false), db)
    else
      var members := UserOrganizationTable.Delete(db.members, user.value, organization.id);
      match MemberRoleName(organization.slug)
      case None => Reply(Ok(false), db)
      case Some(name) =>
        if name !in db.roles then Reply(Ok(false), db)
        else Reply(Ok(true), db.(members := members, assignments := Unassign(db.assignments, user.value, db.roles[name])))
  }
}
