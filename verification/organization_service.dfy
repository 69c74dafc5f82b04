/** `OrganizationService`: create, read, update and delete organizations.
    The three writes are gated by the permission engine before any read or
    write of organization data; reads are public.
 */
module OrganizationService {
  import opened Outcomes
  import opened OrganizationEntity
  import opened Store
  import opened Permission

  /** The models of a run of rows, in the same order. */
  function Models(rows: seq<Entity>): (r: seq<Organization>)
    ensures |r| == |rows|
    ensures forall i :: 0 <= i < |rows| ==> FromModel(r[i]) == rows[i]
  {
    if |rows| == 0 then []
    else Models(rows[..|rows| - 1]) + [ToModel(rows[|rows| - 1])]
  }

  /** `all()`: every stored organization, ungated and unfiltered. */
  function All(db: Db): (r: seq<Organization>)
    ensures |r| == |db.organizations|
    ensures forall i :: 0 <= i < |r| ==> FromModel(r[i]) == db.organizations[i]
  {
    Models(db.organizations)
  }

  /** Whether some stored row already uses a slug. */
  predicate SlugTaken(rows: seq<Entity>, slug: string) {
    exists i :: 0 <= i < |rows| && rows[i].slug == slug
  }

  /** `create(subject, organization)`. The permission is unscoped. A truthy
      client id is discarded so that the id sequence assigns one; a client id
      of `0` is falsy in the source, is therefore kept, and is inserted as
      given without drawing from the sequence. The insert fails at the store
      when the id or the slug is already taken; that error propagates. */
  function Create(allows: Allows, db: Db, subject: int, organization: Organization): (r: Reply<Organization>)
    ensures r.outcome.PermissionDenied? <==> !Check(allows, db, subject, "organization.create", "organization")
    ensures r.outcome.PermissionDenied? ==> r.outcome == PermissionDenied(subject, "organization.create", "organization")
    ensures !r.outcome.NotFound?
    ensures !r.outcome.Ok? ==> r.db == db
    ensures Check(allows, db, subject, "organization.create", "organization") && SlugTaken(db.organizations, organization.slug)
            ==> r.outcome.StoreError?
    ensures r.outcome.StoreError? <==>
              Check(allows, db, subject, "organization.create", "organization")
              && (SlugTaken(db.organizations, organization.slug)
                  || (if organization.id == Some(0) then 0 else db.nextId) in OrgIds(db.organizations))
    ensures r.outcome.Ok? ==> r.outcome.value == organization.(id := r.outcome.value.id)
    ensures r.outcome.Ok? && organization.id != Some(0) ==>
              r.outcome.value.id == Some(db.nextId) && r.db.nextId == db.nextId + 1
    ensures r.outcome.Ok? && organization.id == Some(0) ==>
              r.outcome.value.id == Some(0) && r.db.nextId == db.nextId
    ensures r.outcome.Ok? ==> r.outcome.value.id.Some? && r.outcome.value.id.value !in OrgIds(db.organizations)
    ensures r.outcome.Ok? ==>
              r.db == db.(organizations := db.organizations + [FromModel(r.outcome.value)], nextId := r.db.nextId)
  {
    var gate := Enforce(allows, db, subject, "organization.create", "organization");
    if !gate.Ok? then Reply(PermissionDenied(subject, "organization.create", "organization"), db)
    else
      var cleared := if Truthy(organization.id) then organization.(id := None) else organization;
      var entity := FromModel(cleared);
      var generated := entity.id.None?;
      var id := if generated then db.nextId else entity.id.value;
      if id in OrgIds(db.organizations) then
        Reply(StoreError("duplicate key in organization primary key"), db)
      else if !OneOrNone(db.organizations, entity.slug).NoRow? then
        Reply(StoreError("duplicate key in organization slug"), db)
      else
        var stored := entity.(id := Some(id));
        var nextId := if generated then db.nextId + 1 else db.nextId;
        Reply(Ok(ToModel(stored)), db.(organizations := db.organizations + [stored], nextId := nextId))
  }

  /** `get_by_slug(slug)`: the details of the one row with that slug. */
  function GetBySlug(db: Db, slug: string): (r: Outcome<OrganizationDetails>)
    ensures r.NotFound? <==> !SlugTaken(db.organizations, slug)
    ensures r.Ok? ==> exists i :: 0 <= i < |db.organizations| && db.organizations[i].slug == slug
                                 && r.value == ToDetailsModel(db.organizations[i], db.events)
    ensures r.Ok? ==> r.value.slug == slug
    ensures UniqueSlugs(db.organizations) ==> r.Ok? || r.NotFound?
  {
    match OneOrNone(db.organizations, slug)
    case NoRow => NotFound
    case ManyRows => StoreError("multiple rows with one slug")
    case OneRow(i) => Ok(ToDetailsModel(db.organizations[i], db.events))
  }

  /** `get_status_by_slug(slug)`: the `public` column of the row with that
      slug. */
  function GetStatusBySlug(db: Db, slug: string): (r: Outcome<Visibility>)
    ensures r.NotFound? <==> !SlugTaken(db.organizations, slug)
    ensures r.Ok? ==> exists i :: 0 <= i < |db.organizations| && db.organizations[i].slug == slug
                                 && r.value == db.organizations[i].public
    ensures UniqueSlugs(db.organizations) ==> r.Ok? || r.NotFound?
  {
    match OneOrNone(db.organizations, slug)
    case NoRow => NotFound
    case ManyRows => StoreError("multiple rows with one slug")
    case OneRow(i) => Ok(db.organizations[i].public)
  }

  /** The wholesale overwrite of `update`: all fourteen columns other than
      `id` take the incoming values. */
  function Overwrite(stored: Entity, organization: Organization): (e: Entity)
    ensures e == FromModel(organization).(id := stored.id)
  {
    stored.(name := organization.name,
            shorthand := organization.shorthand,
            slug := organization.slug,
            logo := organization.logo,
            shortDescription := organization.shortDescription,
            longDescription := organization.longDescription,
            website := organization.website,
            email := organization.email,
            instagram := organization.instagram,
            linkedIn := organization.linkedIn,
            youtube := organization.youtube,
            heelLife := organization.heelLife,
            public := organization.public,
            applicationRequired := organization.applicationRequired)
  }

  /** `update(subject, organization)`. The permission is scoped by the slug
      on the incoming object, not by the stored one. The row is looked up by
      the incoming id; a falsy id finds nothing. A new slug that collides
      with another row fails at the store. */
  function Update(allows: Allows, db: Db, subject: int, organization: Organization): (r: Reply<Organization>)
    ensures r.outcome.PermissionDenied? <==>
              !Check(allows, db, subject, "organization.update", OrgResource(organization.slug))
    ensures r.outcome.PermissionDenied? ==>
              r.outcome == PermissionDenied(subject, "organization.update", OrgResource(organization.slug))
    ensures r.outcome.NotFound? <==>
              Check(allows, db, subject, "organization.update", OrgResource(organization.slug))
              && (!Truthy(organization.id) || organization.id.value !in OrgIds(db.organizations))
    ensures !r.outcome.Ok? ==> r.db == db
    ensures r.outcome.StoreError? && UniqueIds(db.organizations) ==>
              exists j :: 0 <= j < |db.organizations| && db.organizations[j].slug == organization.slug
                          && db.organizations[j].id != organization.id
    ensures r.outcome.Ok? ==> r.outcome.value == organization
    ensures r.outcome.Ok? ==>
              exists i :: 0 <= i < |db.organizations| && db.organizations[i].id == organization.id
                          && r.db == db.(organizations := db.organizations[i := FromModel(organization)])
  {
    var gate := Enforce(allows, db, subject, "organization.update", OrgResource(organization.slug));
    if !gate.Ok? then Reply(PermissionDenied(subject, "organization.update", OrgResource(organization.slug)), db)
    else if !Truthy(organization.id) then Reply(NotFound, db)
    else
      match IndexOfId(db.organizations, organization.id.value)
      case None => Reply(NotFound, db)
      case Some(i) =>
        var rows := db.organizations;
        if exists j :: 0 <= j < |rows| && j != i && rows[j].slug == organization.slug then
          Reply(StoreError("duplicate key in organization slug"), db)
        else
          var updated := Overwrite(rows[i], organization);
          ModelRoundTrip(organization);
          Reply(Ok(ToModel(updated)), db.(organizations := rows[i := updated]))
  }

  /** `ON DELETE` cascade of a one-to-many child table: drop every child
      owned by the deleted organization, keep the others as they are. */
  function Cascade(owners: map<int, int>, organization: Option<int>): (r: map<int, int>)
    ensures organization.Some? ==> organization.value !in r.Values
    ensures forall k :: k in r ==> k in owners && r[k] == owners[k]
    ensures forall k :: k in owners && organization != Some(owners[k]) ==> k in r
  {
    map k | k in owners && organization != Some(owners[k]) :: owners[k]
  }

  /** `delete(subject, slug)`. The permission is unscoped: whoever may delete
      may delete any organization. Events and articles of the deleted
      organization go with it. The `users` relationship goes through the
      join table, whose rows for the deleted organization are removed with
      it; the contract promises only that no other membership row is
      touched. */
  function Delete(allows: Allows, db: Db, subject: int, slug: string): (r: Reply<()>)
    ensures r.outcome.PermissionDenied? <==> !Check(allows, db, subject, "organization.delete", "organization")
    ensures r.outcome.PermissionDenied? ==> r.outcome == PermissionDenied(subject, "organization.delete", "organization")
    ensures r.outcome.NotFound? <==>
              Check(allows, db, subject, "organization.delete", "organization") && !SlugTaken(db.organizations, slug)
    ensures !r.outcome.Ok? ==> r.db == db
    ensures UniqueSlugs(db.organizations) ==> !r.outcome.StoreError?
    ensures r.outcome.Ok? ==> |r.db.organizations| == |db.organizations| - 1
    ensures r.outcome.Ok? ==> r.db.members <= db.members
    ensures r.outcome.Ok? ==>
              exists i :: 0 <= i < |db.organizations| && db.organizations[i].slug == slug
                && (forall m :: m in db.members && Some(m.organization) != db.organizations[i].id ==> m in r.db.members)
                && r.db == db.(organizations := db.organizations[..i] + db.organizations[i + 1..],
                               events := Cascade(db.events, db.organizations[i].id),
                               articles := Cascade(db.articles, db.organizations[i].id),
                               members := r.db.members)
  {
    var gate := Enforce(allows, db, subject, "organization.delete", "organization");
    if !gate.Ok? then Reply(PermissionDenied(subject, "organization.delete", "organization"), db)
    else
      match OneOrNone(db.organizations, slug)
      case NoRow => Reply(NotFound, db)
      case ManyRows => Reply(StoreError("multiple rows with one slug"), db)
      case OneRow(i) =>
        var rows := db.organizations;
        Reply(Ok(()), db.(organizations := rows[..i] + rows[i + 1..],
                          events := Cascade(db.events, rows[i].id),
                          articles := Cascade(db.articles, rows[i].id),
                          members := set m | m in db.members && Some(m.organization) != rows[i].id))
  }
}
