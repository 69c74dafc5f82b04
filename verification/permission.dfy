/** The permission engine, kept abstract. Its internals are not part of this
    model: a decision is a function `allows` of the grants the subject holds
    through its roles and of the requested action and resource. Only the
    laws the test suite witnesses are assumed of it, collected in
    `Witnessed`; no prefix or glob matching is assumed.
 */
module Permission {
  import opened Outcomes
  import opened RoleTables
  import opened Store

  /** A decision procedure: held grants, action, resource. */
  type Allows = (set<Grant>, string, string) -> bool

  /** The resource path that scopes an action to one organization. */
  function OrgResource(slug: string): (r: string)
    ensures |r| == |slug| + 13 && r[13..] == slug
  {
    "organization/" + slug
  }

  /** Every grant attached to a role the subject is assigned to. */
  function HeldGrants(db: Db, subject: int): set<Grant>
  {
    set a, g | a in db.assignments && a.user == subject && a.role in db.grants && g in db.grants[a.role] :: g
  }

  /** A subject with no role assignment holds no grant. */
  lemma NoRoleNoGrants(db: Db, subject: int)
    ensures (forall a :: a in db.assignments ==> a.user != subject) ==> HeldGrants(db, subject) == {}
  {
  }

  /** `check(subject, action, resource)`: the engine decides on the grants
      the subject holds, so a subject with no role assignment is judged on
      the empty grant set, whoever it is. */
  predicate Check(allows: Allows, db: Db, subject: int, action: string, resource: string): (permitted: bool)
    ensures (forall a :: a in db.assignments ==> a.user != subject) ==>
              (permitted <==> allows({}, action, resource))
  {
    NoRoleNoGrants(db, subject);
    allows(HeldGrants(db, subject), action, resource)
  }

  /** `enforce(subject, action, resource)`: passes exactly when `check` does,
      and otherwise fails with a denial naming the subject, the action and
      the resource. */
  function Enforce(allows: Allows, db: Db, subject: int, action: string, resource: string): (r: Outcome<()>)
    ensures r.Ok? <==> Check(allows, db, subject, action, resource)
    ensures !r.Ok? ==> r == PermissionDenied(subject, action, resource)
  {
    if Check(allows, db, subject, action, resource) then Ok(()) else PermissionDenied(subject, action, resource)
  }

  /** Assigning a role to a subject adds exactly that role's grants to what
      the subject holds, and changes nothing for anyone else. */
  lemma AssignAddsRoleGrants(db: Db, subject: int, role: int)
    requires role in db.grants
    ensures HeldGrants(db.(assignments := db.assignments + {UserRole(subject, role)}), subject)
         == HeldGrants(db, subject) + db.grants[role]
    ensures forall other :: other != subject ==>
              HeldGrants(db.(assignments := db.assignments + {UserRole(subject, role)}), other)
              == HeldGrants(db, other)
  {
  }

  /** Withdrawing a role can only take grants away from its holder, and
      changes nothing for anyone else. */
  lemma UnassignKeepsOthers(db: Db, subject: int, role: int)
    ensures HeldGrants(db.(assignments := db.assignments - {UserRole(subject, role)}), subject)
         <= HeldGrants(db, subject)
    ensures forall other :: other != subject ==>
              HeldGrants(db.(assignments := db.assignments - {UserRole(subject, role)}), other)
              == HeldGrants(db, other)
  {
  }

  /** Requests the test suite shows being refused, each with the exact set of
      grants the refused subject holds. */
  const Refused: seq<(set<Grant>, string, string)> := [
    // a subject with no roles may not list the members of `cssg`
    ({}, "organization.get_all_users", "organization/cssg"),
    // nor add a member to it
    ({}, "organization.add_membership", "organization/cssg"),
    // nor update it
    ({}, "organization.update", "organization/cssg"),
    // a `cssg` member may list its members but not add one
    ({Grant("organization.get_all_users", "organization/cssg")}, "organization.add_membership", "organization/cssg"),
    // reading any organization by slug grants neither update nor delete
    ({Grant("organization.get_organization_by_slug", "*")}, "organization.update", "organization/csshg"),
    ({Grant("organization.get_organization_by_slug", "*")}, "organization.delete", "organization")
  ]

  /** The behaviour of the engine that the test suite witnesses: the `(*, *)`
      grant permits everything, an exact grant permits its own pair, and the
      refusals listed in `Refused`. */
  ghost predicate Witnessed(allows: Allows) {
    && (forall gs: set<Grant>, action: string, resource: string ::
          Grant("*", "*") in gs ==> allows(gs, action, resource))
    && (forall gs: set<Grant>, action: string, resource: string ::
          Grant(action, resource) in gs ==> allows(gs, action, resource))
    && (forall k :: 0 <= k < |Refused| ==> !allows(Refused[k].0, Refused[k].1, Refused[k].2))
  }

  /** One engine with the witnessed behaviour: a grant matches when each of
      its action and resource is equal to the requested one or is `*`. */
  function ExactOrWildcard(gs: set<Grant>, action: string, resource: string): bool {
    exists g :: g in gs && (g.action == "*" || g.action == action) && (g.resource == "*" || g.resource == resource)
  }

  /** The witnessed laws are consistent: the exact-or-wildcard engine obeys
      all of them. */
  lemma ExactOrWildcardIsWitnessed()
    ensures Witnessed(ExactOrWildcard)
  {
    forall gs: set<Grant>, action: string, resource: string | Grant("*", "*") in gs
      ensures ExactOrWildcard(gs, action, resource)
    {
      var g := Grant("*", "*");
      assert g in gs && g.action == "*" && g.resource == "*";
    }
    forall gs: set<Grant>, action: string, resource: string | Grant(action, resource) in gs
      ensures ExactOrWildcard(gs, action, resource)
    {
      var g := Grant(action, resource);
      assert g in gs && g.action == action && g.resource == resource;
    }
    assert "organization.get_all_users" != "organization.add_membership";
    assert "organization.get_organization_by_slug" != "organization.update";
    assert "organization.get_organization_by_slug" != "organization.delete";
  }

  /** The superuser law: holding a role that carries `(*, *)` passes every
      check. */
  lemma WildcardPermitsAll(allows: Allows, db: Db, subject: int, role: int, action: string, resource: string)
    requires Witnessed(allows)
    requires UserRole(subject, role) in db.assignments && role in db.grants
    requires Grant("*", "*") in db.grants[role]
    ensures Check(allows, db, subject, action, resource)
  {
    assert Grant("*", "*") in HeldGrants(db, subject);
  }

  /** An exact grant held through any role permits its own pair. */
  lemma ExactGrantPermits(allows: Allows, db: Db, subject: int, role: int, action: string, resource: string)
    requires Witnessed(allows)
    requires UserRole(subject, role) in db.assignments && role in db.grants
    requires Grant(action, resource) in db.grants[role]
    ensures Check(allows, db, subject, action, resource)
  {
    assert Grant(action, resource) in HeldGrants(db, subject);
  }

  /** A grant of `organization.get_organization_by_slug` on `*` alone does not
      let its holder update `csshg`. */
  lemma ReadGrantDoesNotPermitUpdate(allows: Allows, db: Db, subject: int)
    requires Witnessed(allows)
    requires HeldGrants(db, subject) == {Grant("organization.get_organization_by_slug", "*")}
    ensures !Check(allows, db, subject, "organization.update", OrgResource("csshg"))
  {
    var k := 4;
    assert !allows(Refused[k].0, Refused[k].1, Refused[k].2);
    assert OrgResource("csshg") == Refused[k].2;
  }
}
