/**
 * MemberRoleConverter: between the API role (MemberRole) and the persisted
 * MemberRoleEntity, and from a row of the member query to an API role.
 */
module MemberRoleConverter {
  import opened Common
  import opened Entities
  import opened Domain

  /**
   * toEntity: a fresh role bound to `orgId`, active, with the scope's kind and
   * resource copied when a scope is given and both left empty otherwise.
   * `freshId` stands for the random UUID.
   */
  function ToEntity(role: MemberRole, orgId: Id, freshId: Id): (e: MemberRoleEntity)
    requires freshId != ""
    ensures e.id == freshId && e.id != ""
    ensures e.organizationId == orgId && e.active
    ensures e.roleId == role.roleId
    ensures role.scope.None? ==> e.scopeId.None? && e.resourceId.None?
    ensures role.scope.Some? ==> e.scopeId == Some(role.scope.value.id) && e.resourceId == role.scope.value.resourceId
  {
    MemberRoleEntity(
      freshId,
      orgId,
      role.roleId,
      if role.scope.Some? then Some(role.scope.value.id) else None,
      if role.scope.Some? then role.scope.value.resourceId else None,
      true)
  }

  /** Builds the optional scope: present exactly when a scope kind is stored. */
  function ScopeOf(scopeId: Option<string>, resourceId: Option<string>): (s: Option<MemberRoleScope>)
    ensures s.Some? <==> scopeId.Some?
    ensures s.Some? ==> s.value.id == scopeId.value && s.value.resourceId == resourceId
  {
    if scopeId.Some? then Some(MemberRoleScope(scopeId.value, resourceId)) else None
  }

  /** toDomain(entity): id and role copied; scope present iff the entity has a scope kind. */
  function ToDomain(e: MemberRoleEntity): (r: MemberRole)
    ensures r.id == Some(e.id) && r.roleId == e.roleId
    ensures r.scope.Some? <==> e.scopeId.Some?
    ensures r.scope.Some? ==> r.scope.value == MemberRoleScope(e.scopeId.value, e.resourceId)
  {
    MemberRole(Some(e.id), e.roleId, ScopeOf(e.scopeId, e.resourceId))
  }

  /** toDomain(MemberWithRoleDto): the row's member-role id becomes the role's id. */
  function FromRow(row: MemberWithRoleDto): (r: MemberRole)
    ensures r.id == Some(row.memberRoleId) && r.roleId == row.roleId
    ensures r.scope.Some? <==> row.scopeId.Some?
    ensures r.scope.Some? ==> r.scope.value == MemberRoleScope(row.scopeId.value, row.resourceId)
  {
    MemberRole(Some(row.memberRoleId), row.roleId, ScopeOf(row.scopeId, row.resourceId))
  }

  /** Converting a requested role and reading it back keeps role and scope; only the id is new. */
  lemma RequestRoundTrip(role: MemberRole, orgId: Id, freshId: Id)
    requires freshId != ""
    ensures ToDomain(ToEntity(role, orgId, freshId)) == role.(id := Some(freshId))
  {
  }

  /**
   * The other direction: an active entity whose resource is only set together
   * with a scope kind is rebuilt exactly from its API form.
   */
  lemma EntityRoundTrip(e: MemberRoleEntity)
    requires e.id != "" && e.active
    requires e.scopeId.None? ==> e.resourceId.None?
    ensures ToEntity(ToDomain(e), e.organizationId, e.id) == e
  {
  }

  /** An inactive entity, or one holding a resource without a scope kind, is not rebuilt. */
  lemma EntityRoundTripLoses(e: MemberRoleEntity)
    requires e.id != ""
    requires !e.active || (e.scopeId.None? && e.resourceId.Some?)
    ensures ToEntity(ToDomain(e), e.organizationId, e.id) != e
  {
  }
}
