# Organization store and membership coordinator, modelled in Dafny

This project models the permission-gated core of a student-organization
backend. It covers two services and the tables under them.

- `OrganizationService` does create, read, update and delete on organization
  records. Each record is keyed by a store-assigned id and a unique slug.
- `UserOrgService` lists the members of an organization and derives
  "leader" from a permission check. It also adds or removes a membership
  together with the matching member-role assignment.

The whole database is one immutable value, `Store.Db`. It holds:

- the `organization` table, as a sequence of rows in table order;
- the id sequence;
- the user ids;
- the `user_organization` join table, as a set of pairs;
- the role-name→role-id table and each role's grants;
- the `user_role` join table;
- the owners of events and articles.

Every write (`create`, `update`, `delete`, `add_membership`,
`remove_membership`) is a pure function from a state to a `Reply`: an
`Outcome` together with the state left behind. The reads take a state and
return only their answer. `get_by_slug`, `get_status_by_slug` and
`get_all_users` return an `Outcome`, `is_leader` a boolean and `all` a
sequence. An `Outcome` is one of:

- `Ok(value)`;
- `PermissionDenied(subject, action, resource)`, raised before any read or
  write;
- `NotFound`;
- `StoreError(reason)`, a constraint violation that propagates.

The membership helpers swallow store errors into the soft answer `Ok(false)`.
That answer is a different constructor from a permission denial, so the two
failure channels cannot be confused.

The permission engine is kept abstract. A decision is a parameter
`allows: (held grants, action, resource) -> bool`. `Permission.Check` applies
it to the grants the subject holds through its role assignments. Lemmas that
need the engine's behaviour assume `Permission.Witnessed(allows)`. That
predicate contains only what the test suite shows:

- `(*, *)` permits everything;
- an exact grant permits its own pair;
- six concrete refusals (`Permission.Refused`).

`Permission.ExactOrWildcard` is one engine that obeys these laws. It shows
the assumption is consistent.

Modules: `Outcomes`, `OrganizationEntity`, `UserOrganizationTable`,
`RoleTables`, `Store`, `Permission`, `OrganizationService`,
`OrganizationProperties`, `UserOrgService`, `MembershipProperties`,
`Scenarios`, `Fixture`.

Behaviour of the code that the model reproduces, in places where a reader
might expect something else:

- `create` clears the client id only when it is truthy. A client id of `0`
  is falsy, so it is kept and inserted as given. The id sequence is not used
  in that case.
- `update` looks up the row only when the incoming id is truthy. An id of
  `0` gives `NotFound`.
- `update` builds its permission resource from the slug on the incoming
  object. The stored row's slug is never consulted
  (`OrganizationProperties.UpdateAuthorizedByIncomingSlug`).
- `update` and `create` report a slug collision as a store error. They do
  not swallow it.
- `remove_membership` answers `true` whenever the member role resolves, even
  when the user was not a member. Deleting no rows is not an error.
- A slug other than `cssg` or `acm` leaves the member role unbound. A member
  role missing from the role table fails on `.id`. In both cases the
  membership helpers answer `false` and write nothing.

## Model

| member | source | states |
|---|---|---|
| `Outcomes.DeniedMessage` | backend/test/services/organization/permission_to_organization_test.py:290-294 | A denial renders as "Not authorized to perform \`action\` on \`resource\`". The action and the resource sit at fixed positions between backticks. |
| `OrganizationEntity.ModelRoundTrip` | backend/entities/organization_entity.py:96-147 | `to_model(from_model(m)) == m` on all fifteen fields. |
| `OrganizationEntity.EntityRoundTrip` | backend/entities/organization_entity.py:96-147 | `from_model(to_model(e)) == e`, so the two shapes correspond one to one. |
| `OrganizationEntity.EventsBelongToOneOrganization` | backend/entities/organization_entity.py:86-89 | Two rows with different ids never list the same event in their details. |
| `OrganizationEntity.NewEventListed` | backend/entities/organization_entity.py:149-173 | Giving an event to a stored organization adds exactly that event to its details, whoever owned it before. |
| `OrganizationEntity.DetailsExtendModel` | backend/entities/organization_entity.py:149-173 | The details model agrees with `to_model` on all fifteen fields. |
| `UserOrganizationTable.Insert` | backend/entities/user_organization_table.py:13-18 | An insert succeeds exactly when the org id is non-null, the pair is new, and both foreign keys resolve. On success it adds exactly one row. |
| `UserOrganizationTable.Delete` | backend/services/user_organization.py:153-158 | Afterwards the pair is absent. Only that pair can disappear. A null org id deletes nothing. |
| `UserOrganizationTable.MembersOf` | backend/services/user_organization.py:50-55 | A user is listed exactly when it is paired with the organization's id. |
| `UserOrganizationTable.InsertTwiceFails` | backend/entities/user_organization_table.py:13-18 | Inserting the same pair a second time fails at the composite key. |
| `RoleTables.Assign` | backend/services/user_organization.py:116-120 | The role insert succeeds exactly when the pair is new and both keys resolve. It then adds exactly that pair. |
| `RoleTables.Unassign` | backend/services/user_organization.py:173-178 | The role delete removes that pair and nothing else. |
| `Store.OneOrNone` | backend/services/organization.py:128-132 | The slug lookup finds no row exactly when no row has the slug. One row means it is the only match. It finds several rows exactly when two rows carry this slug, which the slug constraint rules out. |
| `Store.IndexOfId` | backend/services/organization.py:191-195 | The primary-key lookup finds a row with that id, and finds none exactly when no row has it. |
| `Permission.AssignAddsRoleGrants` | backend/services/user_organization.py:116-120 | Assigning a role to a subject adds exactly that role's grants to what the subject holds. No other subject's grants change. |
| `Permission.UnassignKeepsOthers` | backend/services/user_organization.py:173-178 | Withdrawing a role can only shrink what its holder is granted. No other subject's grants change. |
| `Permission.Check` | backend/services/user_organization.py:70-74 | The engine decides on the grants the subject holds. A subject with no role assignment is judged on the empty grant set, whoever it is. |
| `Permission.Enforce` | backend/services/organization.py:186-188 | `enforce` passes exactly when `check` does. Otherwise it raises a denial carrying subject, action and resource. |
| `Permission.ExactOrWildcardIsWitnessed` | backend/test/services/organization/permission_to_organization_test.py:111-165 | An exact-or-wildcard engine satisfies every witnessed law, so the assumption on the engine is satisfiable. |
| `Permission.WildcardPermitsAll` | backend/test/services/organization/permission_to_organization_test.py:116-123 | Holding a role with the `(*, *)` grant passes every check. |
| `Permission.ExactGrantPermits` | backend/test/services/permission_data.py:47-52 | Holding a role with grant `(a, r)` passes the check for `(a, r)`. |
| `Permission.ReadGrantDoesNotPermitUpdate` | backend/test/services/organization/permission_to_organization_test.py:144-149 | A subject whose only grant is `get_organization_by_slug` on `*` fails the check for `organization.update` on `organization/csshg`. |
| `OrganizationService.All` | backend/services/organization.py:67-78 | `all()` is ungated and returns one model per stored row, in the model's row order. Each model converts back to its row. |
| `OrganizationService.Create` | backend/services/organization.py:80-110 | `organization.create` on the unscoped `organization` is checked first; a denial writes nothing. A truthy client id is discarded and the sequence assigns the id. A taken slug or a taken id is a store error. With the slug and the id both free, a permitted create succeeds. On success the record is appended with a fresh id and equals the input apart from the id. |
| `OrganizationService.GetBySlug` | backend/services/organization.py:112-140 | `NotFound` exactly when no row has the slug. Otherwise it returns the details of the row with that slug. |
| `OrganizationService.GetStatusBySlug` | backend/services/organization.py:142-167 | `NotFound` exactly when no row has the slug. Otherwise it returns that row's `public` value. |
| `OrganizationService.Overwrite` | backend/services/organization.py:203-217 | The overwrite replaces all fourteen non-id columns with the incoming values and keeps the stored id. |
| `OrganizationService.Update` | backend/services/organization.py:169-223 | `organization.update` on `organization/<incoming slug>` is checked first. `NotFound`, with nothing changed, exactly when the incoming id is falsy or unknown. On success the row with that id is replaced by the incoming record, which is returned unchanged. |
| `OrganizationService.Cascade` | backend/entities/organization_entity.py:86-94 | No child is left pointing at the deleted organization. The result is a sub-map of the owners, and every child of another organization is kept. |
| `OrganizationProperties.CascadeIdempotent` | backend/entities/organization_entity.py:86-94 | Applying the cascade again for the same organization removes nothing more. |
| `OrganizationService.Delete` | backend/services/organization.py:225-256 | `organization.delete` on the unscoped `organization` is checked first. `NotFound` exactly when no row has the slug. On success exactly that row is removed, with its events and articles, and the count drops by one. No membership row of another organization is touched. |
| `OrganizationProperties.CreatePreservesValid` | backend/entities/organization_entity.py:49-55 | `create` keeps the constraints: ids assigned, below the sequence and unique; slugs unique; foreign keys resolve. |
| `OrganizationProperties.ForgedIdIgnored` | backend/services/organization.py:97-110 | With a truthy forged id, even one naming an existing row, `create` takes the next sequence id and leaves every stored row unchanged. |
| `OrganizationProperties.CreateThenGetBySlug` | backend/services/organization.py:106-140 | After `create`, a lookup by the new slug returns the created record, which owns no events yet. |
| `OrganizationProperties.UpdatePreservesValid` | backend/entities/organization_entity.py:49-55 | `update` keeps the constraints of the store. |
| `OrganizationProperties.UpdateThenGetBySlug` | backend/test/services/organization/permission_to_organization_test.py:181-207 | After `update`, the record is found by the new slug and carries the new values. |
| `OrganizationProperties.UpdateAuthorizedByIncomingSlug` | backend/services/organization.py:186-201 | Permission on the incoming slug is enough to overwrite the row named by the incoming id, whatever slug that row had, when no other row uses the incoming slug. |
| `OrganizationProperties.DeletePreservesValid` | backend/entities/organization_entity.py:86-94 | `delete` keeps the constraints. No event or article is left pointing at the removed row. |
| `OrganizationProperties.DeleteRemovesExactlyOne` | backend/test/services/organization/permission_to_organization_test.py:229-234 | After `delete` the slug no longer resolves. `all()` shrinks by one and every other record is still present. |
| `OrganizationProperties.StatusAgreesWithDetails` | backend/services/organization.py:156-167 | `get_status_by_slug` succeeds exactly when `get_by_slug` does, and reports the same record's `public`. |
| `OrganizationProperties.DeniedWritesKeepCount` | backend/test/services/organization/permission_to_organization_test.py:220-226 | Each denied write leaves `all()` unchanged on its own: `create`, `update` or `delete`, whatever the subject may do otherwise. |
| `UserOrgService.MemberRoleName` | backend/services/user_organization.py:104-115 | Only `cssg` and `acm` have a member role, named `<slug>_members`. |
| `UserOrgService.IsLeader` | backend/services/user_organization.py:59-74 | Under the witnessed engine, a holder of the `(*, *)` grant leads every organization and a subject with no role does not lead `cssg`. |
| `UserOrgService.GetAllUsers` | backend/services/user_organization.py:35-57 | `organization.get_all_users` on `organization/<slug>` is checked first. Then it returns exactly the existing users paired with the organization's id. |
| `UserOrgService.AddMembership` | backend/services/user_organization.py:76-131 | A denial is raised, never `false`, and writes nothing. The answer is `true` exactly when the user is present and both inserts can go through; then both pairs are added together. Every other case is `false` with nothing written. |
| `UserOrgService.RemoveMembership` | backend/services/user_organization.py:133-190 | A denial is raised, never `false`. The answer is `true` exactly when the user is present and the member role resolves. Then the pair and the role assignment are gone and nothing else is touched. Otherwise it answers `false` and writes nothing. |
| `MembershipProperties.AddMembershipPreservesValid` | backend/entities/user_organization_table.py:13-18 | `add_membership` keeps the constraints of the store. |
| `MembershipProperties.RemoveMembershipPreservesValid` | backend/services/user_organization.py:150-190 | `remove_membership` keeps the constraints of the store. |
| `MembershipProperties.AddCouplesTables` | backend/services/user_organization.py:94-131 | The membership table changes exactly when the role-assignment table does, and then each grows by one row. |
| `MembershipProperties.AddTwiceIsSoftFalse` | backend/test/services/user_org_test.py:133-138 | A second `add_membership` of the same user answers `false` and writes nothing. The member set is the original plus that one user. |
| `MembershipProperties.RemoveUndoesAdd` | backend/services/user_organization.py:97-120 | `remove_membership` right after a successful `add_membership` answers `true` and restores the exact prior state. |
| `MembershipProperties.JoinGrantsMemberPermissions` | backend/test/services/user_org_test.py:108-114 | After joining, the new member passes the check for every grant of the organization's member role. |
| `MembershipProperties.LeavingSoleRoleRevokesAll` | backend/test/services/user_org_test.py:155-161 | After leaving, a user whose only role was the member role holds no grants at all. |
| `MembershipProperties.NonMemberNotListed` | backend/test/services/user_org_test.py:152-156 | A user with no membership pair is not listed by `get_all_users`. |
| `MembershipProperties.JoinedMemberListed` | backend/test/services/user_org_test.py:105-109 | After a successful add, the new member is listed by `get_all_users`. |
| `MembershipProperties.LeaderIffUpdatePermitted` | backend/services/user_organization.py:59-74 | `is_leader` holds exactly when `update` by the same subject on that organization would not be refused. |
| `Scenarios.LeaderAddsStudent` | backend/test/services/user_org_test.py:96-114 | In the suite's shape, the cssg leader adding the student answers `true`. The student then passes the check for `get_all_users` on `organization/cssg`. |
| `Scenarios.StudentCannotAdd` | backend/test/services/user_org_test.py:117-122 | A student with no roles who tries to add anyone to cssg gets a permission denial with no write, not `false`. |
| `Scenarios.LeaderRemovesStudent` | backend/test/services/user_org_test.py:141-161 | Removing the student again answers `true`. The student is no longer listed and fails the check for `get_all_users`. |
| `Fixture.SuiteDbIsCssgFixture` | backend/test/services/user_data.py:129-142 | The suite's users, roles, grants and memberships satisfy every store constraint and the scenario's shape. |
| `Fixture.SuiteAddMembership` | backend/test/services/user_org_test.py:96-122 | On the suite's data, the leader adding the student answers `true`, and the student's own attempt is denied. |

## Left out

- The permission engine's internals are not part of this model. Only the
  laws in `Permission.Witnessed` are assumed, and no prefix or glob matching
  is assumed. The model also assumes a decision depends only on the grants
  the subject holds through its roles.
- `OrganizationService.get` (lookup by name) is marked as waiting to be
  fixed, and it returns an entity rather than a model.
- HTTP routing, the mapping of failures to status codes, and the role
  creation that the create route performs afterwards are not modelled.
- Sessions, commit and rollback mechanics are not modelled: each public
  method is one atomic transition. Logging is not modelled either.
- A failed insert in Postgres still consumes a sequence value. The model
  leaves the whole state unchanged on any error, sequence included.
- `OrganizationService.Delete`: the contract does not promise what happens
  to the deleted organization's own membership rows. The service code does
  not touch them. The many-to-many `users` relationship
  (organization_entity.py:82-84) lets the mapper clear them, so the body
  removes them, but the contract promises only that the join table shrinks
  and that no other organization's rows go. The store invariant therefore
  has no membership-to-organization foreign key.
- Column defaults are not modelled (`name` empty, `public` open,
  `application_required` false at organization_entity.py:51 and 74-79).
  `from_model` sets every column, so no service path applies a default.
- Users are ids only. Their profile fields belong to a user service that is
  not part of this model.
- The `user_role` table definition is not part of this model. It is taken
  to have a composite key over two foreign keys, like `user_organization`.
- `Permission.ReadGrantDoesNotPermitUpdate` does not prove that the denial
  message renders to the exact test string, because equality of literal
  strings that long is too costly for the verifier. `Outcomes.DeniedMessage`
  states the message's layout instead.
- Row order is the model's choice. `all()` has no `ORDER BY`
  (organization.py:75), so the source promises no order. The model keeps
  rows in a sequence: `create` appends and `update` replaces in place.
  Nothing proved depends on the order beyond that layout.
- `public` is a free string column (organization_entity.py:75), and the
  tests even store `True` in it. The model narrows it to the three
  visibility values `Open`, `Request` and `Closed`, so other strings are not
  represented.
- The details' `events` field is a list of event overview models
  (organization_entity.py:172). The model keeps only the set of event ids
  the organization owns, which drops their order and their other fields.
- Concurrency between simultaneous requests is left to the database.
- The ids of `cssg` (1) and `acm` (2) in `Fixture` are chosen. The demo data
  that fixes them is not part of this model.
- The frontend, test fixtures and database reset script are not modelled.
