/**
 * The persisted records of the organization manager (the JPA entities) and
 * the row shape of the organization member query.
 */
module Entities {
  import opened Common

  /** A role held in one organization, optionally scoped to one resource. */
  datatype MemberRoleEntity = MemberRoleEntity(
    id: Id,
    organizationId: Id,
    roleId: string,
    scopeId: Option<string>,
    resourceId: Option<string>,
    active: bool)

  /**
   * A member (an external user id). `roles` links into the member-role table;
   * it has no duplicates, as the Java Set it stands for.
   */
  datatype MemberEntity = MemberEntity(id: Id, email: string, roles: seq<Id>)

  /** An entry of an organization's role catalogue. */
  datatype OrganizationRoleEntity = OrganizationRoleEntity(
    id: Id,
    roleId: string,
    organizationId: Id,
    name: string,
    possibleScopes: seq<string>)

  /** An organization; `members` is the member_to_organization link set. */
  datatype OrganizationEntity = OrganizationEntity(
    id: Id,
    createdAt: Time,
    name: string,
    owner: Id,
    party: Id,
    metadata: Option<string>,
    members: set<Id>,
    roles: seq<OrganizationRoleEntity>)

  datatype InvitationStatus = Pending | Accepted | Expired | Revoked

  /** An invitation; `inviteeRoles` are the role templates granted on acceptance. */
  datatype InvitationEntity = InvitationEntity(
    id: Id,
    organizationId: Id,
    createdAt: Time,
    expiresAt: Time,
    inviteeContactType: Option<string>,
    inviteeContactEmail: string,
    inviteeRoles: seq<MemberRoleEntity>,
    metadata: Option<string>,
    status: InvitationStatus,
    acceptToken: Id,
    acceptedAt: Option<Time>,
    acceptedMemberId: Option<Id>,
    revokedAt: Option<Time>,
    revocationReason: Option<string>)

  /** InvitationEntity.isExpired(): the expiry time lies strictly before `now`. */
  predicate IsExpired(invitation: InvitationEntity, now: Time) {
    invitation.expiresAt < now
  }

  /** One row of the organization member query: a member paired with one of its roles. */
  datatype MemberWithRoleDto = MemberWithRoleDto(
    id: Id,
    email: string,
    memberRoleId: Id,
    roleId: string,
    scopeId: Option<string>,
    resourceId: Option<string>)
}
