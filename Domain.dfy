/**
 * The API model the services return (the generated swag.organizations classes),
 * restricted to the fields the core reads or writes.
 */
module Domain {
  import opened Common

  datatype MemberRoleScope = MemberRoleScope(id: string, resourceId: Option<string>)

  /** A role as seen by clients; a role in a request carries no id yet. */
  datatype MemberRole = MemberRole(id: Option<Id>, roleId: string, scope: Option<MemberRoleScope>)

  datatype Member = Member(id: Id, userEmail: string, roles: seq<MemberRole>)

  /** The body of an organization-creation request. */
  datatype NewOrganization = NewOrganization(name: string, metadata: Option<string>)

  datatype Organization = Organization(
    id: Id,
    createdAt: Time,
    name: string,
    owner: Id,
    party: Id,
    metadata: Option<string>)

  datatype InviteeContact = InviteeContact(contactType: Option<string>, email: Option<string>)

  datatype Invitee = Invitee(contact: Option<InviteeContact>, roles: Option<seq<MemberRole>>)

  datatype InvitationRequest = InvitationRequest(invitee: Option<Invitee>, metadata: Option<string>)

  /** The status-specific part of an invitation (InvitationPending, InvitationAccepted, ...). */
  datatype InvitationState =
    | PendingState
    | AcceptedState(acceptedAt: Time, memberId: Option<Id>)
    | ExpiredState
    | RevokedState(revokedAt: Time, reason: Option<string>)

  datatype Invitation = Invitation(
    id: Id,
    createdAt: Time,
    expiresAt: Time,
    acceptToken: Id,
    metadata: Option<string>,
    contactType: Option<string>,
    contactEmail: string,
    roles: set<MemberRole>,
    state: InvitationState)

  datatype Role = Role(id: string, name: string, scopes: seq<string>)

  datatype OrganizationMembership = OrganizationMembership(member: Member, org: Organization)

  datatype OrganizationSearchResult = OrganizationSearchResult(
    continuationToken: Option<Id>,
    result: seq<Organization>)
}
