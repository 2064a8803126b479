/**
 * OrganizationConverter: a creation request to a new OrganizationEntity and an
 * entity to its API form. Metadata is an opaque JSON text on both sides.
 */
module OrganizationConverter {
  import opened Common
  import opened Entities
  import opened Domain

  /**
   * toEntity: a fresh organization owned by `ownerId`, whose party identity is
   * also `ownerId`; it starts with no members and no role catalogue.
   */
  function ToEntity(request: NewOrganization, ownerId: Id, freshId: Id, now: Time): (e: OrganizationEntity)
    ensures e.id == freshId && e.name == request.name && e.createdAt == now
    ensures e.owner == ownerId && e.party == ownerId
    ensures e.metadata == request.metadata
    ensures e.members == {} && e.roles == []
  {
    OrganizationEntity(freshId, now, request.name, ownerId, ownerId, request.metadata, {}, [])
  }

  /** toDomain: id, creation time, name, owner, party and metadata copied unchanged. */
  function ToDomain(e: OrganizationEntity): (o: Organization)
    ensures o.id == e.id && o.createdAt == e.createdAt && o.name == e.name
    ensures o.owner == e.owner && o.party == e.party
    ensures o.metadata == e.metadata
  {
    Organization(e.id, e.createdAt, e.name, e.owner, e.party, e.metadata)
  }

  /** A created organization reads back with the request's name and metadata, and owner = party = creator. */
  lemma CreatedOrganizationView(request: NewOrganization, ownerId: Id, freshId: Id, now: Time)
    ensures ToDomain(ToEntity(request, ownerId, freshId, now))
         == Organization(freshId, now, request.name, ownerId, ownerId, request.metadata)
  {
  }

  /** toDomain ignores membership and catalogue, so it is fixed by the six copied fields. */
  lemma ToDomainDeterminedByFields(a: OrganizationEntity, b: OrganizationEntity)
    requires a.id == b.id && a.createdAt == b.createdAt && a.name == b.name
    requires a.owner == b.owner && a.party == b.party && a.metadata == b.metadata
    ensures ToDomain(a) == ToDomain(b)
  {
  }
}
