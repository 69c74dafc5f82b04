/** The `user_organization` join table: a composite primary key
    `(user_id, organization_id)` and nothing else, each column a foreign key
    (to `user.id` and `organization.id`). Existence of a pair is the whole
    fact recorded, so the table is a set of pairs.
 */
module UserOrganizationTable {
  import opened Outcomes

  datatype Membership = Membership(user: int, organization: int)

  /** `INSERT ... VALUES (user, organization)`. The store refuses a NULL key
      column, a pair already present (primary key) and an id that names no
      user or no organization (foreign keys); otherwise exactly one row is
      added. */
  function Insert(rows: set<Membership>, users: set<int>, organizations: set<int>,
                  user: int, organization: Option<int>): (r: Option<set<Membership>>)
    ensures r.Some? <==>
      organization.Some? && Membership(user, organization.value) !in rows
      && user in users && organization.value in organizations
    ensures r.Some? ==> Membership(user, organization.value) in r.value
    ensures r.Some? ==> |r.value| == |rows| + 1 && rows < r.value
  {
    if organization.None? then None
    else
      var pair := Membership(user, organization.value);
      if pair in rows || user !in users || organization.value !in organizations then None
      else Some(rows + {pair})
  }

  /** `DELETE ... WHERE user_id = user AND organization_id = organization`.
      Deleting no row is not an error; a NULL organization id matches no
      row. */
  function Delete(rows: set<Membership>, user: int, organization: Option<int>): (r: set<Membership>)
    ensures r <= rows
    ensures organization.Some? ==> Membership(user, organization.value) !in r
    ensures forall p :: p in rows && p !in r ==> organization == Some(p.organization) && p.user == user
  {
    if organization.None? then rows else rows - {Membership(user, organization.value)}
  }

  /** The users joined to one organization. */
  function MembersOf(rows: set<Membership>, organization: Option<int>): (r: set<int>)
    ensures forall u :: u in r <==> organization.Some? && Membership(u, organization.value) in rows
  {
    if organization.None? then {}
    else set p | p in rows && p.organization == organization.value :: p.user
  }

  /** The key makes a second insert of the same pair fail, so a pair is
      never recorded twice and the table size does not grow. */
  lemma InsertTwiceFails(rows: set<Membership>, users: set<int>, organizations: set<int>,
                         user: int, organization: Option<int>)
    requires Insert(rows, users, organizations, user, organization).Some?
    ensures Insert(Insert(rows, users, organizations, user, organization).value,
                   users, organizations, user, organization).None?
  {
  }
}
