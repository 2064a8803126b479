/**
 * ResourceAccessServiceImpl: before a guarded operation, the resource
 * descriptor of the request is turned into a policy context and handed to the
 * external decision point (the bouncer). References in the descriptor are
 * resolved first; a reference that does not resolve aborts the check before
 * the decision point is asked.
 *
 * The decision point and the invitation-token resolver are parameters: the
 * first is the bouncer's verdict on a context, the second stands for
 * getPartyByInvitationToken. Every method also returns the context it handed
 * to the decision point, or None when it asked nothing.
 */
module ResourceAccess {
  import opened Common
  import opened Entities
  import opened Domain
  import MemberRoleConverter
  import OrganizationService

  /** The references a request carries; every field is optional. */
  datatype ResourceDto = ResourceDto(
    orgId: Option<Id>,
    invitationToken: Option<Id>,
    memberRoleId: Option<Id>,
    memberId: Option<Id>,
    roleId: Option<string>,
    scopeResourceId: Option<string>,
    invitationId: Option<Id>,
    email: Option<string>)

  datatype RoleDto = RoleDto(roleId: Option<string>, scopeResourceId: Option<string>)

  datatype InvitationDto = InvitationDto(invitationId: Option<Id>, email: Option<string>)

  /** The policy context; `organizationId` ends up holding a party id. */
  datatype BouncerContextDto = BouncerContextDto(
    operationName: string,
    organizationId: Option<Id>,
    memberId: Option<Id>,
    invitation: Option<InvitationDto>,
    role: Option<RoleDto>)

  /** The bouncer's answer: a judgement, or a failure to reach one (BouncerException). */
  datatype Decision = Allowed | Restricted | Failure

  /** isCheckAccessDisabled: only an explicit `false` switches checking off; an unset flag keeps it on. */
  predicate IsCheckAccessDisabled(enabled: Option<bool>) {
    enabled == Some(false)
  }

  function DeniedMessage(op: string): string {
    "No rights to perform " + op
  }

  /**
   * callBouncer: Allowed passes; Restricted is AccessDenied naming the
   * operation; a failed call is a dependency failure, distinct from a denial.
   */
  function CallBouncer(op: string, decision: Decision): (r: Outcome)
    ensures r.Pass? <==> decision == Allowed
    ensures decision == Restricted ==> r == Fail(AccessDenied(DeniedMessage(op)))
    ensures decision == Failure ==> r == Fail(DependencyFailure)
  {
    match decision
    case Allowed => Pass
    case Restricted => Fail(AccessDenied(DeniedMessage(op)))
    case Failure => Fail(DependencyFailure)
  }

  /**
   * buildBouncerContextDto: the operation, the organization id, the member
   * id, the role and scope resource and the invitation id and e-mail, each
   * copied from the descriptor as given.
   */
  function BuildBouncerContextDto(resource: ResourceDto, op: string): (ctx: BouncerContextDto)
    ensures ctx.operationName == op
    ensures ctx.organizationId == resource.orgId && ctx.memberId == resource.memberId
    ensures ctx.role.Some? && ctx.role.value.roleId == resource.roleId
    ensures ctx.role.Some? && ctx.role.value.scopeResourceId == resource.scopeResourceId
    ensures ctx.invitation.Some? && ctx.invitation.value.invitationId == resource.invitationId
    ensures ctx.invitation.Some? && ctx.invitation.value.email == resource.email
  {
    BouncerContextDto(op, resource.orgId, resource.memberId,
                      Some(InvitationDto(resource.invitationId, resource.email)),
                      Some(RoleDto(resource.roleId, resource.scopeResourceId)))
  }

  /** MemberRoleService.findById: the stored role in its API form, or NotFound. */
  function FindMemberRole(table: map<Id, MemberRoleEntity>, id: Id): (r: Result<MemberRole>)
    ensures r.Ok? <==> id in table
    ensures r.Err? ==> r.error == NotFound
    ensures r.Ok? ==> r.value.roleId == table[id].roleId
    ensures r.Ok? ==> (r.value.scope.Some? <==> table[id].scopeId.Some?)
    ensures r.Ok? && r.value.scope.Some? ==> r.value.scope.value.resourceId == table[id].resourceId
  {
    if id in table then Ok(MemberRoleConverter.ToDomain(table[id])) else Err(NotFound)
  }

  /** Every reference the descriptor carries resolves. */
  predicate Resolves(resource: ResourceDto, orgs: map<Id, OrganizationEntity>,
                     table: map<Id, MemberRoleEntity>, partyOf: Id -> Result<Id>) {
    && (resource.orgId.Some? ==> resource.orgId.value in orgs)
    && (resource.invitationToken.Some? ==> partyOf(resource.invitationToken.value).Ok?)
    && (resource.memberRoleId.Some? ==> resource.memberRoleId.value in table)
  }

  /**
   * checkRights(): with checking switched off, Pass without asking; otherwise
   * the decision point is asked with a context holding the operation name
   * and nothing else, and its answer decides.
   */
  method CheckRights(enabled: Option<bool>, op: string, decide: BouncerContextDto -> Decision)
    returns (r: Outcome, asked: Option<BouncerContextDto>)
    ensures IsCheckAccessDisabled(enabled) ==> r == Pass && asked.None?
    ensures !IsCheckAccessDisabled(enabled) ==> asked == Some(BouncerContextDto(op, None, None, None, None))
    ensures asked.Some? ==> r == CallBouncer(op, decide(asked.value))
    ensures r.Pass? ==> IsCheckAccessDisabled(enabled) || (asked.Some? && decide(asked.value) == Allowed)
  {
    if IsCheckAccessDisabled(enabled) {
      return Pass, None;
    }
    var ctx := BouncerContextDto(op, None, None, None, None);
    asked := Some(ctx);
    r := CallBouncer(op, decide(ctx));
  }

  /**
   * checkRights(resource): with checking switched off, Pass without asking.
   * Otherwise the context starts as the descriptor's copy; an organization id
   * is replaced by that organization's party (NotFound if it is missing); an
   * invitation token replaces it again by the party the token resolves to
   * (the resolver's error if it does not); a member-role id replaces the role
   * by the stored role's id and its scope's resource (NotFound if it is
   * missing). Any failed lookup ends the check before the decision point is
   * asked; otherwise the decision point's answer decides.
   */
  method CheckRightsOn(enabled: Option<bool>, op: string, resource: ResourceDto,
                       orgs: map<Id, OrganizationEntity>, table: map<Id, MemberRoleEntity>,
                       partyOf: Id -> Result<Id>, decide: BouncerContextDto -> Decision)
    returns (r: Outcome, asked: Option<BouncerContextDto>)
    ensures IsCheckAccessDisabled(enabled) ==> r == Pass && asked.None?
    ensures asked.Some? <==> !IsCheckAccessDisabled(enabled) && Resolves(resource, orgs, table, partyOf)
    ensures !IsCheckAccessDisabled(enabled) && resource.orgId.Some? && resource.orgId.value !in orgs
      ==> r == Fail(NotFound)
    ensures !IsCheckAccessDisabled(enabled) && (resource.orgId.Some? ==> resource.orgId.value in orgs)
      && resource.invitationToken.Some? && partyOf(resource.invitationToken.value).Err?
      ==> r == Fail(partyOf(resource.invitationToken.value).error)
    ensures !IsCheckAccessDisabled(enabled) && (resource.orgId.Some? ==> resource.orgId.value in orgs)
      && (resource.invitationToken.Some? ==> partyOf(resource.invitationToken.value).Ok?)
      && resource.memberRoleId.Some? && resource.memberRoleId.value !in table
      ==> r == Fail(NotFound)
    ensures asked.Some? ==> r == CallBouncer(op, decide(asked.value))
    ensures asked.Some? ==> asked.value.operationName == op
    ensures asked.Some? ==>
      asked.value.organizationId ==
        if resource.invitationToken.Some? then Some(partyOf(resource.invitationToken.value).value)
        else if resource.orgId.Some? then Some(orgs[resource.orgId.value].party)
        else None
    ensures asked.Some? ==> asked.value.memberId == resource.memberId
    ensures asked.Some? ==> asked.value.invitation == Some(InvitationDto(resource.invitationId, resource.email))
    ensures asked.Some? ==>
      asked.value.role == Some(
        if resource.memberRoleId.Some? then
          var e := table[resource.memberRoleId.value];
          RoleDto(Some(e.roleId), if e.scopeId.Some? then e.resourceId else None)
        else RoleDto(resource.roleId, resource.scopeResourceId))
    ensures r.Pass? ==> IsCheckAccessDisabled(enabled) || (asked.Some? && decide(asked.value) == Allowed)
  {
    if IsCheckAccessDisabled(enabled) {
      return Pass, None;
    }
    var ctx := BuildBouncerContextDto(resource, op);
    if resource.orgId.Some? {
      var org := OrganizationService.FindById(orgs, resource.orgId.value);
      if org.Err? {
        return Fail(org.error), None;
      }
      ctx := ctx.(organizationId := Some(org.value.party));
    }
    if resource.invitationToken.Some? {
      var party := partyOf(resource.invitationToken.value);
      if party.Err? {
        return Fail(party.error), None;
      }
      ctx := ctx.(organizationId := Some(party.value));
    }
    if resource.memberRoleId.Some? {
      var role := FindMemberRole(table, resource.memberRoleId.value);
      if role.Err? {
        return Fail(role.error), None;
      }
      var scope := role.value.scope;
      ctx := ctx.(role := Some(RoleDto(Some(role.value.roleId), if scope.Some? then scope.value.resourceId else None)));
    }
    asked := Some(ctx);
    r := CallBouncer(op, decide(ctx));
  }
}
