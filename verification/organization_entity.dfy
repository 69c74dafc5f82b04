/** The organization record, in its two shapes: the model handed across the
    service boundary and the entity stored as a row of the `organization`
    table. Both carry the same fifteen fields; the details model adds the
    events the organization owns.
 */
module OrganizationEntity {
  import opened Outcomes

  /** The `public` column: whether joining is open, by request, or closed. */
  datatype Visibility = Open | Request | Closed

  /** Python truthiness of an optional integer id: `None` and `0` are falsy. */
  predicate Truthy(id: Option<int>) {
    id.Some? && id.value != 0
  }

  datatype Organization = Organization(
    id: Option<int>,
    name: string,
    shorthand: string,
    slug: string,
    logo: string,
    shortDescription: string,
    longDescription: string,
    website: string,
    email: string,
    instagram: string,
    linkedIn: string,
    youtube: string,
    heelLife: string,
    public: Visibility,
    applicationRequired: bool)

  /** A row of the `organization` table. `id` is `None` until the store
      assigns it on insert. */
  datatype Entity = Entity(
    id: Option<int>,
    name: string,
    shorthand: string,
    slug: string,
    logo: string,
    shortDescription: string,
    longDescription: string,
    website: string,
    email: string,
    instagram: string,
    linkedIn: string,
    youtube: string,
    heelLife: string,
    public: Visibility,
    applicationRequired: bool)

  datatype OrganizationDetails = OrganizationDetails(
    id: Option<int>,
    name: string,
    shorthand: string,
    slug: string,
    logo: string,
    shortDescription: string,
    longDescription: string,
    website: string,
    email: string,
    instagram: string,
    linkedIn: string,
    youtube: string,
    heelLife: string,
    public: Visibility,
    applicationRequired: bool,
    events: set<int>)

  function FromModel(m: Organization): (e: Entity)
    ensures e.id == m.id && e.slug == m.slug
  {
    Entity(m.id, m.name, m.shorthand, m.slug, m.logo, m.shortDescription,
           m.longDescription, m.website, m.email, m.instagram, m.linkedIn,
           m.youtube, m.heelLife, m.public, m.applicationRequired)
  }

  function ToModel(e: Entity): (m: Organization)
    ensures m.id == e.id && m.slug == e.slug && m.public == e.public
  {
    Organization(e.id, e.name, e.shorthand, e.slug, e.logo, e.shortDescription,
                 e.longDescription, e.website, e.email, e.instagram, e.linkedIn,
                 e.youtube, e.heelLife, e.public, e.applicationRequired)
  }

  /** The events relationship: every event whose owning organization is
      this row. `eventOwners` maps an event id to its organization id. */
  function ToDetailsModel(e: Entity, eventOwners: map<int, int>): OrganizationDetails
  {
    OrganizationDetails(e.id, e.name, e.shorthand, e.slug, e.logo, e.shortDescription,
                        e.longDescription, e.website, e.email, e.instagram, e.linkedIn,
                        e.youtube, e.heelLife, e.public, e.applicationRequired,
                        set ev | ev in eventOwners && e.id == Some(eventOwners[ev]))
  }

  /** Converting a model to an entity and back loses nothing. */
  lemma ModelRoundTrip(m: Organization)
    ensures ToModel(FromModel(m)) == m
  {
  }

  /** Converting an entity to a model and back loses nothing either, so the
      two shapes are in one-to-one correspondence. */
  lemma EntityRoundTrip(e: Entity)
    ensures FromModel(ToModel(e)) == e
  {
  }

  /** Every event belongs to at most one organization: two rows with
      different ids never list the same event. */
  lemma EventsBelongToOneOrganization(e1: Entity, e2: Entity, eventOwners: map<int, int>)
    requires e1.id != e2.id
    ensures ToDetailsModel(e1, eventOwners).events !! ToDetailsModel(e2, eventOwners).events
  {
  }

  /** Assigning an event to a stored organization adds exactly that event to
      its details. */
  lemma NewEventListed(e: Entity, eventOwners: map<int, int>, event: int)
    requires e.id.Some?
    ensures ToDetailsModel(e, eventOwners[event := e.id.value]).events
         == ToDetailsModel(e, eventOwners).events + {event}
  {
  }

  /** The details model agrees with the plain model on all fifteen fields. */
  lemma DetailsExtendModel(e: Entity, eventOwners: map<int, int>)
    ensures var d := ToDetailsModel(e, eventOwners); var m := ToModel(e);
      d.id == m.id && d.name == m.name && d.shorthand == m.shorthand && d.slug == m.slug
      && d.logo == m.logo && d.shortDescription == m.shortDescription
      && d.longDescription == m.longDescription && d.website == m.website
      && d.email == m.email && d.instagram == m.instagram && d.linkedIn == m.linkedIn
      && d.youtube == m.youtube && d.heelLife == m.heelLife && d.public == m.public
      && d.applicationRequired == m.applicationRequired
  {
  }
}
