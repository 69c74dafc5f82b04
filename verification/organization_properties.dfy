/** Properties that relate the organization operations to one another and to
    the store's constraints.
 */
module OrganizationProperties {
  import opened Outcomes
  import opened OrganizationEntity
  import opened Store
  import opened Permission
  import opened OrganizationService

  lemma OrgIdsAppend(rows: seq<Entity>, e: Entity)
    requires e.id.Some?
    ensures OrgIds(rows + [e]) == OrgIds(rows) + {e.id.value}
  {
    var rows' := rows + [e];
    forall k | k in OrgIds(rows)
      ensures k in OrgIds(rows')
    {
      var i :| 0 <= i < |rows| && rows[i].id == Some(k);
      assert rows'[i] == rows[i];
    }
    assert rows'[|rows|] == e;
  }

  lemma OrgIdsReplace(rows: seq<Entity>, i: nat, e: Entity)
    requires i < |rows| && e.id == rows[i].id
    ensures OrgIds(rows[i := e]) == OrgIds(rows)
  {
    var rows' := rows[i := e];
    forall k | k in OrgIds(rows)
      ensures k in OrgIds(rows')
    {
      var j :| 0 <= j < |rows| && rows[j].id == Some(k);
      assert rows'[j].id == Some(k);
    }
    forall k | k in OrgIds(rows')
      ensures k in OrgIds(rows)
    {
      var j :| 0 <= j < |rows'| && rows'[j].id == Some(k);
      assert rows[j].id == Some(k);
    }
  }

  lemma OrgIdsRemove(rows: seq<Entity>, i: nat)
    requires i < |rows| && rows[i].id.Some? && UniqueIds(rows)
    ensures OrgIds(rows[..i] + rows[i + 1..]) == OrgIds(rows) - {rows[i].id.value}
  {
    var rows' := rows[..i] + rows[i + 1..];
    assert forall j :: 0 <= j < i ==> rows'[j] == rows[j];
    assert forall j :: i < j < |rows| ==> rows'[j - 1] == rows[j];
    forall k | k in OrgIds(rows) - {rows[i].id.value}
      ensures k in OrgIds(rows')
    {
      var j :| 0 <= j < |rows| && rows[j].id == Some(k);
      if j < i {
        assert rows'[j].id == Some(k);
      } else {
        assert rows'[j - 1].id == Some(k);
      }
    }
    forall k | k in OrgIds(rows')
      ensures k in OrgIds(rows) - {rows[i].id.value}
    {
      var j :| 0 <= j < |rows'| && rows'[j].id == Some(k);
      if j < i {
        assert rows[j].id == Some(k);
      } else {
        assert rows[j + 1].id == Some(k);
      }
    }
  }

  /** `create` keeps every constraint of the store. */
  lemma CreatePreservesValid(allows: Allows, db: Db, subject: int, organization: Organization)
    requires Valid(db)
    ensures Valid(Create(allows, db, subject, organization).db)
  {
    var r := Create(allows, db, subject, organization);
    if r.outcome.Ok? {
      var e := FromModel(r.outcome.value);
      OrgIdsAppend(db.organizations, e);
      var rows' := r.db.organizations;
      assert rows'[|db.organizations|] == e;
      assert !SlugTaken(db.organizations, organization.slug);
      assert forall i :: 0 <= i < |db.organizations| ==> rows'[i] == db.organizations[i];
      forall i | 0 <= i < |db.organizations|
        ensures rows'[i].id != e.id
      {
        assert rows'[i].id.value in OrgIds(db.organizations);
      }
    }
  }

  /** A client-supplied id never decides where a record lands: with a truthy
      forged id, even one that names an existing row, `create` succeeds when
      the slug is free, takes the next id of the sequence and leaves every
      stored row as it was. */
  lemma ForgedIdIgnored(allows: Allows, db: Db, subject: int, organization: Organization)
    requires Valid(db)
    requires Check(allows, db, subject, "organization.create", "organization")
    requires Truthy(organization.id) && !SlugTaken(db.organizations, organization.slug)
    ensures var r := Create(allows, db, subject, organization);
      && r.outcome.Ok?
      && r.outcome.value.id == Some(db.nextId)
      && r.db.organizations[..|db.organizations|] == db.organizations
  {
    var r := Create(allows, db, subject, organization);
    assert r.db.organizations == db.organizations + [FromModel(r.outcome.value)];
  }

  /** After a successful `create`, looking up the new slug finds exactly the
      created record, and it owns no events yet. */
  lemma CreateThenGetBySlug(allows: Allows, db: Db, subject: int, organization: Organization)
    requires Valid(db)
    requires Create(allows, db, subject, organization).outcome.Ok?
    ensures var r := Create(allows, db, subject, organization);
      GetBySlug(r.db, organization.slug) == Ok(ToDetailsModel(FromModel(r.outcome.value), r.db.events))
      && ToDetailsModel(FromModel(r.outcome.value), r.db.events).events == {}
  {
    var r := Create(allows, db, subject, organization);
    CreatePreservesValid(allows, db, subject, organization);
    var rows' := r.db.organizations;
    var e := FromModel(r.outcome.value);
    assert rows'[|db.organizations|] == e;
    var found := OneOrNone(rows', organization.slug);
    assert found == OneRow(|db.organizations|);
    forall ev | ev in r.db.events
      ensures e.id != Some(r.db.events[ev])
    {
      assert r.db.events[ev] in OrgIds(db.organizations);
    }
  }

  /** Overwriting one row with a row of the same id and a slug no other row
      uses keeps every constraint. */
  lemma ReplaceRowValid(db: Db, i: nat, e: Entity)
    requires Valid(db) && i < |db.organizations| && e.id == db.organizations[i].id
    requires forall j :: 0 <= j < |db.organizations| && j != i ==> db.organizations[j].slug != e.slug
    ensures Valid(db.(organizations := db.organizations[i := e]))
  {
    var rows := db.organizations;
    var rows' := rows[i := e];
    OrgIdsReplace(rows, i, e);
    assert forall j :: 0 <= j < |rows| && j != i ==> rows'[j] == rows[j];
    forall a, b | 0 <= a < b < |rows'|
      ensures rows'[a].id != rows'[b].id && rows'[a].slug != rows'[b].slug
    {
      assert rows'[a].id == rows[a].id && rows'[b].id == rows[b].id;
    }
  }

  /** `update` keeps every constraint of the store. */
  lemma UpdatePreservesValid(allows: Allows, db: Db, subject: int, organization: Organization)
    requires Valid(db)
    ensures Valid(Update(allows, db, subject, organization).db)
  {
    var r := Update(allows, db, subject, organization);
    if r.outcome.Ok? {
      var i :| 0 <= i < |db.organizations| && db.organizations[i].id == organization.id
               && r.db == db.(organizations := db.organizations[i := FromModel(organization)]);
      ReplaceRowValid(db, i, FromModel(organization));
    }
  }

  /** After a successful `update` the record is found under the incoming slug
      and carries the incoming values. */
  lemma UpdateThenGetBySlug(allows: Allows, db: Db, subject: int, organization: Organization)
    requires Valid(db)
    requires Update(allows, db, subject, organization).outcome.Ok?
    ensures var r := Update(allows, db, subject, organization);
      GetBySlug(r.db, organization.slug) == Ok(ToDetailsModel(FromModel(organization), db.events))
  {
    var r := Update(allows, db, subject, organization);
    UpdatePreservesValid(allows, db, subject, organization);
    var i :| 0 <= i < |db.organizations| && db.organizations[i].id == organization.id
             && r.db == db.(organizations := db.organizations[i := FromModel(organization)]);
    assert r.db.organizations[i] == FromModel(organization);
    assert OneOrNone(r.db.organizations, organization.slug) == OneRow(i);
  }

  /** The rows left after removing position `i`, and where each came from. */
  lemma RemoveShifts(rows: seq<Entity>, i: nat)
    requires i < |rows|
    ensures |rows[..i] + rows[i + 1..]| == |rows| - 1
    ensures forall j :: 0 <= j < i ==> (rows[..i] + rows[i + 1..])[j] == rows[j]
    ensures forall j :: i < j < |rows| ==> (rows[..i] + rows[i + 1..])[j - 1] == rows[j]
  {
  }

  /** Where a row left after removing position `i` came from. */
  lemma RemovedAt(rows: seq<Entity>, i: nat, j: nat)
    requires i < |rows| && j < |rows| - 1
    ensures (rows[..i] + rows[i + 1..])[j] == rows[if j < i then j else j + 1]
  {
    RemoveShifts(rows, i);
    if j >= i {
      assert (rows[..i] + rows[i + 1..])[(j + 1) - 1] == rows[j + 1];
    }
  }

  /** Removing a row keeps ids and slugs unique and below the sequence. */
  lemma RemoveKeepsRowsValid(db: Db, i: nat)
    requires IdsAssigned(db) && UniqueIds(db.organizations) && UniqueSlugs(db.organizations)
    requires i < |db.organizations|
    ensures var db' := db.(organizations := db.organizations[..i] + db.organizations[i + 1..]);
      IdsAssigned(db') && UniqueIds(db'.organizations) && UniqueSlugs(db'.organizations)
  {
    var rows := db.organizations;
    var rows' := rows[..i] + rows[i + 1..];
    RemoveShifts(rows, i);
    forall a, b | 0 <= a < b < |rows'|
      ensures rows'[a].id != rows'[b].id && rows'[a].slug != rows'[b].slug
    {
      RemovedAt(rows, i, a);
      RemovedAt(rows, i, b);
    }
    forall j | 0 <= j < |rows'|
      ensures rows'[j].id.Some? && rows'[j].id.value < db.nextId
    {
      RemovedAt(rows, i, j);
    }
  }

  /** Removing one row together with the events and articles it owns keeps
      every constraint. */
  lemma RemoveRowValid(db: Db, i: nat)
    requires Valid(db) && i < |db.organizations|
    ensures var rows := db.organizations;
      Valid(db.(organizations := rows[..i] + rows[i + 1..],
                events := Cascade(db.events, rows[i].id),
                articles := Cascade(db.articles, rows[i].id)))
  {
    var rows := db.organizations;
    RemoveKeepsRowsValid(db, i);
    OrgIdsRemove(rows, i);
  }

  /** The cascade settles in one step: applying it again for the same
      organization removes nothing more. */
  lemma CascadeIdempotent(owners: map<int, int>, organization: Option<int>)
    ensures Cascade(Cascade(owners, organization), organization) == Cascade(owners, organization)
  {
  }

  /** `update` authorizes against the incoming slug alone: a subject
      permitted on `organization/<s>` may overwrite the row named by the
      incoming id, whatever slug that row had, as long as no other row
      already uses `<s>`. */
  lemma UpdateAuthorizedByIncomingSlug(allows: Allows, db: Db, subject: int, organization: Organization, i: nat)
    requires Valid(db) && i < |db.organizations|
    requires Truthy(organization.id) && db.organizations[i].id == organization.id
    requires Check(allows, db, subject, "organization.update", OrgResource(organization.slug))
    requires forall j :: 0 <= j < |db.organizations| && j != i ==> db.organizations[j].slug != organization.slug
    ensures Update(allows, db, subject, organization).outcome == Ok(organization)
    ensures Update(allows, db, subject, organization).db.organizations[i] == FromModel(organization)
  {
  }

  /** `delete` keeps every constraint of the store: the events and articles
      that pointed at the removed row are gone with it. */
  lemma DeletePreservesValid(allows: Allows, db: Db, subject: int, slug: string)
    requires Valid(db)
    ensures Valid(Delete(allows, db, subject, slug).db)
  {
    var r := Delete(allows, db, subject, slug);
    if r.outcome.Ok? {
      var rows := db.organizations;
      var i :| 0 <= i < |rows| && rows[i].slug == slug
               && r.db == db.(organizations := rows[..i] + rows[i + 1..],
                              events := Cascade(db.events, rows[i].id),
                              articles := Cascade(db.articles, rows[i].id),
                              members := r.db.members);
      var kept := db.(members := r.db.members);
      assert Valid(kept);
      RemoveRowValid(kept, i);
    }
  }

  /** A successful `delete` removes exactly the record with that slug: the
      slug no longer resolves, the count drops by one, and every other
      record is still there. */
  lemma DeleteRemovesExactlyOne(allows: Allows, db: Db, subject: int, slug: string)
    requires Valid(db)
    requires Delete(allows, db, subject, slug).outcome.Ok?
    ensures var r := Delete(allows, db, subject, slug);
      && GetBySlug(r.db, slug) == NotFound
      && |All(r.db)| == |All(db)| - 1
      && (forall j :: 0 <= j < |db.organizations| && db.organizations[j].slug != slug
                     ==> db.organizations[j] in r.db.organizations)
  {
    var r := Delete(allows, db, subject, slug);
    var rows := db.organizations;
    var i :| 0 <= i < |rows| && rows[i].slug == slug
             && r.db.organizations == rows[..i] + rows[i + 1..];
    RemovedSlugGone(rows, i);
    OthersKept(rows, i);
  }

  lemma RemovedSlugGone(rows: seq<Entity>, i: nat)
    requires i < |rows| && UniqueSlugs(rows)
    ensures !SlugTaken(rows[..i] + rows[i + 1..], rows[i].slug)
  {
    RemoveShifts(rows, i);
    var rows' := rows[..i] + rows[i + 1..];
    forall j | 0 <= j < |rows'|
      ensures rows'[j].slug != rows[i].slug
    {
      if j >= i {
        assert rows'[(j + 1) - 1] == rows[j + 1];
      }
    }
  }

  lemma OthersKept(rows: seq<Entity>, i: nat)
    requires i < |rows|
    ensures forall j :: 0 <= j < |rows| && j != i ==> rows[j] in rows[..i] + rows[i + 1..]
  {
    RemoveShifts(rows, i);
    var rows' := rows[..i] + rows[i + 1..];
    forall j | 0 <= j < |rows| && j != i
      ensures rows[j] in rows'
    {
      if j < i {
        assert rows'[j] == rows[j];
      } else {
        assert rows'[j - 1] == rows[j];
      }
    }
  }

  /** `get_status_by_slug` fails exactly when `get_by_slug` does and
      otherwise reports the visibility of the same record. */
  lemma StatusAgreesWithDetails(db: Db, slug: string)
    requires UniqueSlugs(db.organizations)
    ensures GetStatusBySlug(db, slug).Ok? <==> GetBySlug(db, slug).Ok?
    ensures GetStatusBySlug(db, slug).Ok? ==> GetStatusBySlug(db, slug).value == GetBySlug(db, slug).value.public
  {
  }

  /** A refused write changes nothing: the organization list stays the same
      after a denied `create`, `update` or `delete`, each on its own. */
  lemma DeniedWritesKeepCount(allows: Allows, db: Db, subject: int, organization: Organization, slug: string)
    ensures !Check(allows, db, subject, "organization.create", "organization")
            ==> All(Create(allows, db, subject, organization).db) == All(db)
    ensures !Check(allows, db, subject, "organization.update", OrgResource(organization.slug))
            ==> All(Update(allows, db, subject, organization).db) == All(db)
    ensures !Check(allows, db, subject, "organization.delete", "organization")
            ==> All(Delete(allows, db, subject, slug).db) == All(db)
  {
  }
}
