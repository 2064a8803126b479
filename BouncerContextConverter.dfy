/**
 * BouncerContextConverter: the user, organization and role fragments of the
 * policy context handed to the external decision point (bouncer context v1).
 */
module BouncerContextConverter {
  import opened Common
  import opened Entities

  /** The shop a role is scoped to. */
  datatype OrgRoleScope = OrgRoleScope(shop: Id)

  datatype OrgRole = OrgRole(id: string, scope: Option<OrgRoleScope>)

  /** Roles are absent (null) when the user has no roles at all. */
  datatype Organization = Organization(id: Id, owner: Id, party: Id, roles: Option<set<OrgRole>>)

  datatype User = User(id: Option<Id>, email: Option<string>, orgs: set<Organization>)

  /** toOrgRole: the role id, and a shop scope exactly when the role names a resource. */
  function ToOrgRole(e: MemberRoleEntity): (r: OrgRole)
    ensures r.id == e.roleId
    ensures r.scope.Some? <==> e.resourceId.Some?
    ensures r.scope.Some? ==> r.scope.value.shop == e.resourceId.value
  {
    OrgRole(e.roleId, if e.resourceId.Some? then Some(OrgRoleScope(e.resourceId.value)) else None)
  }

  /**
   * toOrganization: id, owner and party copied; roles null when the given role
   * set is null or empty, otherwise the roles of exactly this organization
   * (possibly none).
   */
  function ToOrganization(entity: OrganizationEntity, roles: Option<set<MemberRoleEntity>>): (o: Organization)
    ensures o.id == entity.id && o.owner == entity.owner && o.party == entity.party
    ensures o.roles.None? <==> (roles.None? || roles.value == {})
    ensures o.roles.Some? ==>
      forall e :: e in roles.value && e.organizationId == entity.id ==> ToOrgRole(e) in o.roles.value
    ensures o.roles.Some? ==>
      forall x :: x in o.roles.value ==> exists e :: e in roles.value && e.organizationId == entity.id && x == ToOrgRole(e)
  {
    Organization(
      entity.id, entity.owner, entity.party,
      if roles.None? || roles.value == {} then None
      else Some(set e | e in roles.value && e.organizationId == entity.id :: ToOrgRole(e)))
  }

  /** A member's linked roles, as the Set the entity holds. */
  function RoleSet(member: MemberEntity, table: map<Id, MemberRoleEntity>): set<MemberRoleEntity>
    requires forall i :: 0 <= i < |member.roles| ==> member.roles[i] in table
  {
    set i | 0 <= i < |member.roles| :: table[member.roles[i]]
  }

  /** The roles toUser hands to toOrganization: null for an absent member. */
  function UserRoles(member: Option<MemberEntity>, table: map<Id, MemberRoleEntity>): Option<set<MemberRoleEntity>>
    requires member.Some? ==> forall i :: 0 <= i < |member.value.roles| ==> member.value.roles[i] in table
  {
    if member.None? then None else Some(RoleSet(member.value, table))
  }

  function ConvertOrganizations(orgs: set<OrganizationEntity>, roles: Option<set<MemberRoleEntity>>): set<Organization> {
    set o | o in orgs :: ToOrganization(o, roles)
  }

  /** Organizations with distinct ids convert to distinct context entries. */
  lemma {:induction false} ConvertedOrganizationsSize(orgs: set<OrganizationEntity>, roles: Option<set<MemberRoleEntity>>)
    requires forall a, b :: a in orgs && b in orgs && a.id == b.id ==> a == b
    ensures |ConvertOrganizations(orgs, roles)| == |orgs|
    decreases |orgs|
  {
    if orgs != {} {
      var a :| a in orgs;
      var rest := orgs - {a};
      ConvertedOrganizationsSize(rest, roles);
      assert ConvertOrganizations(orgs, roles) == ConvertOrganizations(rest, roles) + {ToOrganization(a, roles)};
      assert ToOrganization(a, roles) !in ConvertOrganizations(rest, roles);
    }
  }

  /**
   * toUser: id and e-mail of the member (null for an absent member), and one
   * converted organization per given organization.
   */
  function ToUser(member: Option<MemberEntity>, table: map<Id, MemberRoleEntity>, orgs: set<OrganizationEntity>): (u: User)
    requires member.Some? ==> forall i :: 0 <= i < |member.value.roles| ==> member.value.roles[i] in table
    ensures member.None? ==> u.id.None? && u.email.None?
    ensures member.Some? ==> u.id == Some(member.value.id) && u.email == Some(member.value.email)
    ensures forall o :: o in orgs ==> ToOrganization(o, UserRoles(member, table)) in u.orgs
    ensures forall x :: x in u.orgs ==> exists o :: o in orgs && x == ToOrganization(o, UserRoles(member, table))
  {
    User(if member.None? then None else Some(member.value.id),
         if member.None? then None else Some(member.value.email),
         ConvertOrganizations(orgs, UserRoles(member, table)))
  }

  /** Organizations with distinct ids give the user exactly one context entry each. */
  lemma ToUserOneEntryPerOrganization(member: Option<MemberEntity>, table: map<Id, MemberRoleEntity>, orgs: set<OrganizationEntity>)
    requires member.Some? ==> forall i :: 0 <= i < |member.value.roles| ==> member.value.roles[i] in table
    requires forall a, b :: a in orgs && b in orgs && a.id == b.id ==> a == b
    ensures |ToUser(member, table, orgs).orgs| == |orgs|
  {
    ConvertedOrganizationsSize(orgs, UserRoles(member, table));
  }
}
