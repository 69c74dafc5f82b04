/** The role/permission store as the membership coordinator sees it: roles
    keyed by unique name, the permission grants attached to each role, and
    the `user_role` join table of role assignments. The `user_role` table is
    taken to have the same shape as `user_organization`: a composite key over
    two foreign keys.
 */
module RoleTables {
  import opened Outcomes

  /** One permission record: an action and a resource, either of which may be
      the wildcard `*`. */
  datatype Grant = Grant(action: string, resource: string)

  datatype UserRole = UserRole(user: int, role: int)

  /** `INSERT INTO user_role`: the store refuses a pair already present and
      an id that names no user or no role; otherwise exactly one row is
      added. */
  function Assign(rows: set<UserRole>, users: set<int>, roles: set<int>,
                  user: int, role: int): (r: Option<set<UserRole>>)
    ensures r.Some? <==> UserRole(user, role) !in rows && user in users && role in roles
    ensures r.Some? ==> UserRole(user, role) in r.value && |r.value| == |rows| + 1
    ensures r.Some? ==> forall a :: a in r.value && a != UserRole(user, role) ==> a in rows
  {
    if UserRole(user, role) in rows || user !in users || role !in roles then None
    else Some(rows + {UserRole(user, role)})
  }

  /** `DELETE FROM user_role WHERE user_id = user AND role_id = role`;
      deleting no row is not an error. */
  function Unassign(rows: set<UserRole>, user: int, role: int): (r: set<UserRole>)
    ensures UserRole(user, role) !in r
    ensures forall a :: a in rows && a != UserRole(user, role) ==> a in r
    ensures r <= rows
  {
    rows - {UserRole(user, role)}
  }
}
