/**
 * OrganizationRoleService: reading one role or the whole role catalogue of an
 * organization.
 */
module OrganizationRoleService {
  import opened Common
  import opened Entities
  import opened Domain

  /** The API form of a catalogue entry (OrganizationRoleConverter). */
  function ToRole(e: OrganizationRoleEntity): Role {
    Role(e.roleId, e.name, e.possibleScopes)
  }

  /** The first catalogue entry with the given role id. */
  function FindRole(catalogue: seq<OrganizationRoleEntity>, roleId: string): (r: Option<OrganizationRoleEntity>)
    ensures r.Some? <==> exists i :: 0 <= i < |catalogue| && catalogue[i].roleId == roleId
    ensures r.Some? ==> r.value in catalogue && r.value.roleId == roleId
  {
    if catalogue == [] then None
    else if catalogue[0].roleId == roleId then Some(catalogue[0])
    else
      var rest := FindRole(catalogue[1..], roleId);
      assert forall i :: 1 <= i < |catalogue| ==> catalogue[i] == catalogue[1..][i - 1];
      rest
  }

  /**
   * get: NotFound when the organization is unknown (before any role lookup) or
   * when its catalogue has no entry with `roleId`; otherwise that entry.
   */
  function Get(orgs: map<Id, OrganizationEntity>, orgId: Id, roleId: string): (r: Result<Role>)
    ensures orgId !in orgs ==> r == Err(NotFound)
    ensures orgId in orgs ==>
      (r.Ok? <==> exists i :: 0 <= i < |orgs[orgId].roles| && orgs[orgId].roles[i].roleId == roleId)
    ensures r.Err? ==> r.error == NotFound
    ensures r.Ok? ==> exists e :: e in orgs[orgId].roles && e.roleId == roleId && r.value == ToRole(e)
  {
    if orgId !in orgs then Err(NotFound)
    else match FindRole(orgs[orgId].roles, roleId)
      case None => Err(NotFound)
      case Some(e) => Ok(ToRole(e))
  }

  /** list: NotFound (an empty not-found response) for an unknown organization, else one Role per catalogue entry. */
  function List(orgs: map<Id, OrganizationEntity>, orgId: Id): (r: Result<seq<Role>>)
    ensures orgId !in orgs <==> r == Err(NotFound)
    ensures r.Ok? ==> |r.value| == |orgs[orgId].roles|
    ensures r.Ok? ==> forall i :: 0 <= i < |r.value| ==> r.value[i] == ToRole(orgs[orgId].roles[i])
  {
    if orgId !in orgs then Err(NotFound)
    else
      var catalogue := orgs[orgId].roles;
      Ok(seq(|catalogue|, i requires 0 <= i < |catalogue| => ToRole(catalogue[i])))
  }
}
