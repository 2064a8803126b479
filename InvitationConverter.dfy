/**
 * InvitationConverter: an invitation request to a new Pending InvitationEntity,
 * and an entity to its API form, dispatched on the stored status.
 */
module InvitationConverter {
  import opened Common
  import opened Entities
  import opened Domain
  import MemberRoleConverter

  /** The requested role templates; an absent invitee or role list gives none. */
  function RequestRoles(request: InvitationRequest): seq<MemberRole> {
    if request.invitee.Some? && request.invitee.value.roles.Some? then request.invitee.value.roles.value else []
  }

  /** The contact type of the invitee, absent when the invitee or its contact is absent. */
  function RequestContactType(request: InvitationRequest): Option<string> {
    if request.invitee.Some? && request.invitee.value.contact.Some? then request.invitee.value.contact.value.contactType
    else None
  }

  /** The contact e-mail of the invitee, "" when the invitee, its contact or its e-mail is absent. */
  function RequestContactEmail(request: InvitationRequest): string {
    if request.invitee.Some? && request.invitee.value.contact.Some? && request.invitee.value.contact.value.email.Some?
    then request.invitee.value.contact.value.email.value
    else ""
  }

  /** Role ids handed out by the UUID generator: non-empty and pairwise distinct. */
  predicate FreshIds(ids: seq<Id>) {
    NoDup(ids) && forall i :: 0 <= i < |ids| ==> ids[i] != ""
  }

  /**
   * toEntity: a Pending invitation of `orgId` created at `now` and expiring
   * `lifeTimeInDays` days later; every requested role becomes an active role
   * of `orgId` with its own fresh id. `freshId`, `freshToken` and
   * `freshRoleIds` stand for the random UUIDs.
   */
  function ToEntity(request: InvitationRequest, orgId: Id, freshId: Id, freshToken: Id,
                    freshRoleIds: seq<Id>, now: Time, lifeTimeInDays: int): (e: InvitationEntity)
    requires |freshRoleIds| == |RequestRoles(request)| && FreshIds(freshRoleIds)
    ensures e.id == freshId && e.acceptToken == freshToken
    ensures e.status == Pending && e.organizationId == orgId
    ensures e.createdAt == now && e.expiresAt == now + lifeTimeInDays * SecondsPerDay
    ensures request.invitee.None? ==> e.inviteeContactType == None && e.inviteeContactEmail == "" && e.inviteeRoles == []
    ensures e.inviteeContactType == RequestContactType(request) && e.inviteeContactEmail == RequestContactEmail(request)
    ensures |e.inviteeRoles| == |RequestRoles(request)|
    ensures forall i :: 0 <= i < |e.inviteeRoles| ==>
      e.inviteeRoles[i].organizationId == orgId && e.inviteeRoles[i].active && e.inviteeRoles[i].id == freshRoleIds[i]
    ensures e.acceptedAt == None && e.acceptedMemberId == None && e.revokedAt == None && e.revocationReason == None
  {
    var roles := RequestRoles(request);
    InvitationEntity(
      freshId,
      orgId,
      now,
      now + lifeTimeInDays * SecondsPerDay,
      RequestContactType(request),
      RequestContactEmail(request),
      seq(|roles|, i requires 0 <= i < |roles| && |freshRoleIds| == |roles| && FreshIds(freshRoleIds) =>
        MemberRoleConverter.ToEntity(roles[i], orgId, freshRoleIds[i])),
      request.metadata,
      Pending,
      freshToken,
      None, None, None, None)
  }

  /**
   * The status-specific view: acceptance data only when Accepted, revocation
   * data only when Revoked. OffsetDateTime.from dereferences the timestamp of
   * that status, so a missing one is a NullPointerException.
   */
  function StateOf(e: InvitationEntity): (r: Result<InvitationState>)
    ensures r.Err? <==> (e.status == Accepted && e.acceptedAt.None?) || (e.status == Revoked && e.revokedAt.None?)
    ensures r.Err? ==> r.error == NullReference
    ensures r.Ok? ==> (r.value.PendingState? <==> e.status == Pending)
    ensures r.Ok? ==> (r.value.ExpiredState? <==> e.status == Expired)
    ensures r.Ok? ==> (r.value.AcceptedState? <==> e.status == Accepted)
    ensures r.Ok? ==> (r.value.RevokedState? <==> e.status == Revoked)
    ensures r.Ok? && r.value.AcceptedState? ==> e.acceptedAt == Some(r.value.acceptedAt) && r.value.memberId == e.acceptedMemberId
    ensures r.Ok? && r.value.RevokedState? ==> e.revokedAt == Some(r.value.revokedAt) && r.value.reason == e.revocationReason
  {
    match e.status
    case Pending => Ok(PendingState)
    case Accepted => if e.acceptedAt.None? then Err(NullReference) else Ok(AcceptedState(e.acceptedAt.value, e.acceptedMemberId))
    case Expired => Ok(ExpiredState)
    case Revoked => if e.revokedAt.None? then Err(NullReference) else Ok(RevokedState(e.revokedAt.value, e.revocationReason))
  }

  /** The stored status an API state stands for. */
  function StatusOf(s: InvitationState): InvitationStatus {
    match s
    case PendingState => Pending
    case AcceptedState(_, _) => Accepted
    case ExpiredState => Expired
    case RevokedState(_, _) => Revoked
  }

  /**
   * The API state keeps everything toDomain reads: from it the stored status
   * and the stamps of that status are recovered, so two entities that agree
   * on those convert to the same state.
   */
  lemma StateOfRecoversEntity(e: InvitationEntity, f: InvitationEntity)
    requires StateOf(e).Ok?
    ensures StatusOf(StateOf(e).value) == e.status
    ensures StateOf(e).value.AcceptedState? ==> e.acceptedAt == Some(StateOf(e).value.acceptedAt)
    ensures StateOf(e).value.RevokedState? ==> e.revokedAt == Some(StateOf(e).value.revokedAt)
    ensures f.status == e.status && f.acceptedAt == e.acceptedAt && f.acceptedMemberId == e.acceptedMemberId
            && f.revokedAt == e.revokedAt && f.revocationReason == e.revocationReason
            ==> StateOf(f) == StateOf(e)
  {
  }

  function ConvertRoles(roles: seq<MemberRoleEntity>): (r: set<MemberRole>)
    ensures forall x :: x in roles ==> MemberRoleConverter.ToDomain(x) in r
    ensures forall y :: y in r ==> exists x :: x in roles && y == MemberRoleConverter.ToDomain(x)
  {
    set x | x in roles :: MemberRoleConverter.ToDomain(x)
  }

  /**
   * toDomain: whatever the status, id, times, accept token, metadata, contact
   * and converted roles are copied; the status selects the variant. It fails
   * exactly where the status-specific view does.
   */
  function ToDomain(e: InvitationEntity): (r: Result<Invitation>)
    ensures r.Err? <==> (e.status == Accepted && e.acceptedAt.None?) || (e.status == Revoked && e.revokedAt.None?)
    ensures r.Err? ==> r.error == NullReference
    ensures r.Ok? ==> r.value.id == e.id && r.value.acceptToken == e.acceptToken
    ensures r.Ok? ==> r.value.createdAt == e.createdAt && r.value.expiresAt == e.expiresAt && r.value.metadata == e.metadata
    ensures r.Ok? ==> r.value.contactType == e.inviteeContactType && r.value.contactEmail == e.inviteeContactEmail
    ensures r.Ok? ==> forall x :: x in e.inviteeRoles ==> MemberRoleConverter.ToDomain(x) in r.value.roles
    ensures r.Ok? ==> forall y :: y in r.value.roles ==> exists x :: x in e.inviteeRoles && y == MemberRoleConverter.ToDomain(x)
    ensures r.Ok? ==> StateOf(e) == Ok(r.value.state)
  {
    var state := StateOf(e);
    if state.Err? then Err(state.error)
    else Ok(Invitation(e.id, e.createdAt, e.expiresAt, e.acceptToken, e.metadata,
                       e.inviteeContactType, e.inviteeContactEmail, ConvertRoles(e.inviteeRoles), state.value))
  }

  /**
   * A freshly converted request reads back as a Pending invitation whose roles
   * are exactly the requested ones, each with its fresh id.
   */
  lemma CreatedInvitationView(request: InvitationRequest, orgId: Id, freshId: Id, freshToken: Id,
                              freshRoleIds: seq<Id>, now: Time, lifeTimeInDays: int)
    requires |freshRoleIds| == |RequestRoles(request)| && FreshIds(freshRoleIds)
    ensures var r := ToDomain(ToEntity(request, orgId, freshId, freshToken, freshRoleIds, now, lifeTimeInDays));
      && r.Ok?
      && var inv := r.value;
      && inv.state == PendingState
      && inv.contactEmail == RequestContactEmail(request)
      && inv.roles == set i | 0 <= i < |freshRoleIds| :: RequestRoles(request)[i].(id := Some(freshRoleIds[i]))
  {
    var e := ToEntity(request, orgId, freshId, freshToken, freshRoleIds, now, lifeTimeInDays);
    var roles := RequestRoles(request);
    var expected := set i | 0 <= i < |freshRoleIds| :: roles[i].(id := Some(freshRoleIds[i]));
    var inv := ToDomain(e).value;
    forall y | y in inv.roles ensures y in expected {
      var x :| x in e.inviteeRoles && y == MemberRoleConverter.ToDomain(x);
      var i :| 0 <= i < |e.inviteeRoles| && e.inviteeRoles[i] == x;
      MemberRoleConverter.RequestRoundTrip(roles[i], orgId, freshRoleIds[i]);
    }
    forall i | 0 <= i < |freshRoleIds| ensures roles[i].(id := Some(freshRoleIds[i])) in inv.roles {
      MemberRoleConverter.RequestRoundTrip(roles[i], orgId, freshRoleIds[i]);
      assert e.inviteeRoles[i] in e.inviteeRoles;
    }
  }
}
