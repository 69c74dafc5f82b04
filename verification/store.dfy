/** The whole database as one immutable value. Each public service method
    is one atomic transition of it: on success the new value is the
    committed state, on any failure the state is the one before the call.
 */
module Store {
  import opened Outcomes
  import opened OrganizationEntity
  import opened UserOrganizationTable
  import opened RoleTables

  datatype Db = Db(
    organizations: seq<Entity>,   // the `organization` table, in table order
    nextId: int,                  // the next value of its id sequence
    users: set<int>,              // ids of the `user` table
    members: set<Membership>,     // the `user_organization` table
    roles: map<string, int>,      // role name to role id
    grants: map<int, set<Grant>>, // role id to the permissions it holds
    assignments: set<UserRole>,   // the `user_role` table
    events: map<int, int>,        // event id to owning organization id
    articles: map<int, int>)      // article id to owning organization id

  /** A transition's answer together with the state it leaves behind. */
  datatype Reply<+T> = Reply(outcome: Outcome<T>, db: Db)

  /** The primary keys present in the organization table. */
  function OrgIds(rows: seq<Entity>): (r: set<int>)
    ensures forall k :: k in r <==> exists i :: 0 <= i < |rows| && rows[i].id == Some(k)
  {
    set i | 0 <= i < |rows| && rows[i].id.Some? :: rows[i].id.value
  }

  /** Every stored row carries an id the sequence has already handed out. */
  predicate IdsAssigned(db: Db) {
    && db.nextId > 0
    && forall i :: 0 <= i < |db.organizations| ==>
      db.organizations[i].id.Some? && db.organizations[i].id.value < db.nextId
  }

  /** The primary key: no two rows share an id. */
  predicate UniqueIds(rows: seq<Entity>) {
    forall i, j :: 0 <= i < j < |rows| ==> rows[i].id != rows[j].id
  }

  /** The `unique=True` constraint on `slug`. */
  predicate UniqueSlugs(rows: seq<Entity>) {
    forall i, j :: 0 <= i < j < |rows| ==> rows[i].slug != rows[j].slug
  }

  /** Foreign keys: join rows name existing users and roles, and events and
      articles name existing organizations. */
  predicate KeysResolve(db: Db) {
    && (forall p :: p in db.members ==> p.user in db.users)
    && (forall a :: a in db.assignments ==> a.user in db.users && a.role in db.roles.Values)
    && (forall e :: e in db.events ==> db.events[e] in OrgIds(db.organizations))
    && (forall e :: e in db.articles ==> db.articles[e] in OrgIds(db.organizations))
  }

  predicate Valid(db: Db) {
    IdsAssigned(db) && UniqueIds(db.organizations) && UniqueSlugs(db.organizations) && KeysResolve(db)
  }

  /** The positions of the rows with a given slug, in increasing order. */
  function SlugIndices(rows: seq<Entity>, slug: string): (r: seq<nat>)
    ensures forall k :: 0 <= k < |r| ==> r[k] < |rows| && rows[r[k]].slug == slug
    ensures forall i :: 0 <= i < |rows| && rows[i].slug == slug ==> i in r
    ensures forall a, b :: 0 <= a < b < |r| ==> r[a] < r[b]
    decreases |rows|
  {
    if |rows| == 0 then []
    else
      var rest := SlugIndices(rows[..|rows| - 1], slug);
      if rows[|rows| - 1].slug == slug then rest + [|rows| - 1] else rest
  }

  /** What `query(...).filter(slug == s).one_or_none()` finds. */
  datatype Lookup = NoRow | OneRow(index: nat) | ManyRows

  function OneOrNone(rows: seq<Entity>, slug: string): (r: Lookup)
    ensures r.NoRow? <==> forall i :: 0 <= i < |rows| ==> rows[i].slug != slug
    ensures r.OneRow? ==> r.index < |rows| && rows[r.index].slug == slug
    ensures r.OneRow? ==> forall i :: 0 <= i < |rows| && rows[i].slug == slug ==> i == r.index
    ensures r.ManyRows? <==>
              exists a, b :: 0 <= a < b < |rows| && rows[a].slug == slug && rows[b].slug == slug
    ensures r.ManyRows? ==> !UniqueSlugs(rows)
  {
    var ix := SlugIndices(rows, slug);
    if |ix| == 0 then NoRow
    else if |ix| == 1 then OneRow(ix[0])
    else
      assert ix[0] < ix[1] && rows[ix[0]].slug == rows[ix[1]].slug;
      ManyRows
  }

  /** What `session.get(OrganizationEntity, id)` finds: the row with that
      primary key. */
  function IndexOfId(rows: seq<Entity>, id: int): (r: Option<nat>)
    ensures r.Some? ==> r.value < |rows| && rows[r.value].id == Some(id)
    ensures r.None? <==> id !in OrgIds(rows)
  {
    if |rows| == 0 then None
    else if rows[0].id == Some(id) then Some(0)
    else
      match IndexOfId(rows[1..], id)
      case None =>
        assert forall i :: 1 <= i < |rows| ==> rows[i] == rows[1..][i - 1];
        None
      case Some(k) => Some(k + 1)
  }
}
