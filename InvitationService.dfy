/**
 * InvitationService: creating, reading, listing, revoking and redeeming
 * invitations, and the periodic sweep that marks stale Pending invitations
 * Expired.
 */
module InvitationService {
  import opened Common
  import opened Entities
  import opened Domain
  import opened Store
  import InvitationConverter

  /**
   * validateInvitation: a time-expired invitation is refused first, whatever
   * its status; then a Revoked one, then an Accepted one, whose acceptance
   * time is rendered into the error (an Accepted invitation without one
   * fails on the missing value instead); any other invitation passes
   * unchanged.
   */
  function ValidateInvitation(inv: InvitationEntity, now: Time): (r: Result<InvitationEntity>)
    ensures IsExpired(inv, now) ==> r == Err(InviteExpired(inv.expiresAt))
    ensures !IsExpired(inv, now) && inv.status == Revoked ==> r == Err(InviteRevoked(inv.revocationReason))
    ensures !IsExpired(inv, now) && inv.status == Accepted && inv.acceptedAt.Some? ==>
      r == Err(InviteAlreadyAccepted(inv.acceptedAt.value))
    ensures !IsExpired(inv, now) && inv.status == Accepted && inv.acceptedAt.None? ==> r == Err(NullReference)
    ensures r.Ok? <==> !IsExpired(inv, now) && (inv.status == Pending || inv.status == Expired)
    ensures r.Ok? ==> r.value == inv
  {
    if IsExpired(inv, now) then Err(InviteExpired(inv.expiresAt))
    else if inv.status.Revoked? then Err(InviteRevoked(inv.revocationReason))
    else if inv.status.Accepted? then
      if inv.acceptedAt.Some? then Err(InviteAlreadyAccepted(inv.acceptedAt.value)) else Err(NullReference)
    else Ok(inv)
  }

  /** findByToken: NotFound when no invitation holds `token`, otherwise the validated invitation. */
  function FindByToken(invitations: map<Id, InvitationEntity>, token: Id, now: Time): (r: Result<InvitationEntity>)
    requires InvitationsValid(invitations)
    ensures (forall k :: k in invitations ==> invitations[k].acceptToken != token) ==> r == Err(NotFound)
    ensures forall k :: k in invitations && invitations[k].acceptToken == token ==> r == ValidateInvitation(invitations[k], now)
    ensures r.Ok? ==>
      && r.value.id in invitations && invitations[r.value.id] == r.value
      && r.value.acceptToken == token
      && !IsExpired(r.value, now) && r.value.status != Revoked && r.value.status != Accepted
  {
    var found := InvitationWithToken(invitations, token);
    if found.None? then Err(NotFound) else ValidateInvitation(found.value, now)
  }

  /** isExpiredPendingInvitation: Pending and past its expiry. */
  predicate IsExpiredPendingInvitation(inv: InvitationEntity, now: Time) {
    inv.status == Pending && IsExpired(inv, now)
  }

  /** The repository query behind list: the organization's invitations, optionally of one status. */
  predicate Selected(inv: InvitationEntity, orgId: Id, status: Option<InvitationStatus>) {
    inv.organizationId == orgId && (status.None? || inv.status == status.value)
  }

  /** The invitations list converts: selected by the query and not filtered out as expired. */
  predicate Shown(inv: InvitationEntity, orgId: Id, status: Option<InvitationStatus>, now: Time) {
    Selected(inv, orgId, status) && !IsExpiredPendingInvitation(inv, now)
  }

  function Listed(invitations: map<Id, InvitationEntity>, orgId: Id, status: Option<InvitationStatus>, now: Time): set<Invitation> {
    set k | k in invitations && Shown(invitations[k], orgId, status, now) && InvitationConverter.ToDomain(invitations[k]).Ok?
      :: InvitationConverter.ToDomain(invitations[k]).value
  }

  /**
   * list: NotFound for an unknown organization; otherwise the selected
   * invitations except exactly those that are Pending and time-expired.
   * One of them that does not convert fails the whole list.
   */
  function List(orgs: map<Id, OrganizationEntity>, invitations: map<Id, InvitationEntity>,
                orgId: Id, status: Option<InvitationStatus>, now: Time): (r: Result<set<Invitation>>)
    ensures orgId !in orgs <==> r == Err(NotFound)
    ensures orgId in orgs ==>
      (r.Err? <==> exists k :: k in invitations && Shown(invitations[k], orgId, status, now)
                                && InvitationConverter.ToDomain(invitations[k]).Err?)
    ensures orgId in orgs && r.Err? ==> r.error == NullReference
    ensures r.Ok? ==> forall k :: k in invitations && Selected(invitations[k], orgId, status) ==>
      (!IsExpiredPendingInvitation(invitations[k], now) ==>
         InvitationConverter.ToDomain(invitations[k]).Ok? && InvitationConverter.ToDomain(invitations[k]).value in r.value)
    ensures r.Ok? ==> forall x :: x in r.value ==>
      exists k :: k in invitations && Selected(invitations[k], orgId, status)
        && !IsExpiredPendingInvitation(invitations[k], now) && InvitationConverter.ToDomain(invitations[k]) == Ok(x)
  {
    if orgId !in orgs then Err(NotFound)
    else if exists k :: k in invitations && Shown(invitations[k], orgId, status, now) && InvitationConverter.ToDomain(invitations[k]).Err?
    then Err(NullReference)
    else Ok(Listed(invitations, orgId, status, now))
  }

  /**
   * Accepted and Revoked invitations of the organization are always listed
   * when no status filter is given, however old they are.
   */
  lemma ListKeepsTerminal(orgs: map<Id, OrganizationEntity>, invitations: map<Id, InvitationEntity>, orgId: Id, now: Time, k: Id)
    requires orgId in orgs && k in invitations && invitations[k].organizationId == orgId
    requires invitations[k].status == Accepted || invitations[k].status == Revoked
    ensures InvitationConverter.ToDomain(invitations[k]).Err? ==> List(orgs, invitations, orgId, None, now) == Err(NullReference)
    ensures List(orgs, invitations, orgId, None, now).Ok? ==>
      InvitationConverter.ToDomain(invitations[k]).Ok?
      && InvitationConverter.ToDomain(invitations[k]).value in List(orgs, invitations, orgId, None, now).value
  {
    assert Shown(invitations[k], orgId, None, now);
  }

  /**
   * A Pending, time-expired invitation is never listed: no listed invitation
   * has its id, since ids are keys.
   */
  lemma ListDropsExpiredPending(orgs: map<Id, OrganizationEntity>, invitations: map<Id, InvitationEntity>,
                                orgId: Id, status: Option<InvitationStatus>, now: Time, k: Id)
    requires InvitationsValid(invitations)
    requires orgId in orgs && k in invitations && IsExpiredPendingInvitation(invitations[k], now)
    ensures List(orgs, invitations, orgId, status, now).Ok? ==>
      forall x :: x in List(orgs, invitations, orgId, status, now).value ==> x.id != k
  {
    var r := List(orgs, invitations, orgId, status, now);
    forall x | r.Ok? && x in r.value ensures x.id != k {
      var j :| j in invitations && Selected(invitations[j], orgId, status) && !IsExpiredPendingInvitation(invitations[j], now)
        && InvitationConverter.ToDomain(invitations[j]) == Ok(x);
      assert x.id == j;
    }
  }

  // ---- the expiry sweep ----

  /** The sweep's effect on one invitation. */
  function Swept1(inv: InvitationEntity, now: Time): InvitationEntity {
    if inv.status == Pending && inv.expiresAt < now then inv.(status := Expired) else inv
  }

  /**
   * The whole table after checkAndModifyExpiredStatus: exactly the Pending
   * invitations whose expiry lies before `now` become Expired; every other
   * invitation, and every other field, is unchanged.
   */
  function Swept(invitations: map<Id, InvitationEntity>, now: Time): (r: map<Id, InvitationEntity>)
    ensures r.Keys == invitations.Keys
    ensures forall k :: k in invitations ==>
      (r[k] != invitations[k] <==> invitations[k].status == Pending && invitations[k].expiresAt < now)
    ensures forall k :: k in invitations && r[k] != invitations[k] ==> r[k] == invitations[k].(status := Expired)
  {
    map k | k in invitations :: Swept1(invitations[k], now)
  }

  /** Re-running the sweep at the same instant changes nothing. */
  lemma SweepIdempotent(invitations: map<Id, InvitationEntity>, now: Time)
    ensures Swept(Swept(invitations, now), now) == Swept(invitations, now)
  {
    var once := Swept(invitations, now);
    forall k | k in once ensures Swept(once, now)[k] == once[k] {
    }
  }

  /** The sweep keeps every store invariant: ids, tokens and role templates are untouched. */
  lemma SweptValid(invitations: map<Id, InvitationEntity>, now: Time)
    requires InvitationsValid(invitations)
    ensures InvitationsValid(Swept(invitations, now))
  {
    var r := Swept(invitations, now);
    forall a, b | a in r && b in r && r[a].acceptToken == r[b].acceptToken ensures a == b {
      assert invitations[a].acceptToken == r[a].acceptToken && invitations[b].acceptToken == r[b].acceptToken;
    }
    forall k | k in r ensures r[k].id == k && TemplatesValid(r[k]) {
      assert r[k].inviteeRoles == invitations[k].inviteeRoles;
    }
  }

  /**
   * The loop of checkAndModifyExpiredStatus: visits the Pending invitations
   * one by one and marks those whose expiry lies before `now` Expired.
   */
  method SweepPending(invitations: map<Id, InvitationEntity>, now: Time) returns (swept: map<Id, InvitationEntity>)
    ensures swept == Swept(invitations, now)
  {
    var pending := set k | k in invitations && invitations[k].status == Pending;
    swept := invitations;
    while pending != {}
      invariant pending <= invitations.Keys && swept.Keys == invitations.Keys
      invariant forall k :: k in pending ==> swept[k] == invitations[k] && invitations[k].status == Pending
      invariant forall k :: k in invitations && k !in pending ==> swept[k] == Swept1(invitations[k], now)
      decreases pending
    {
      var k :| k in pending;
      if swept[k].expiresAt < now {
        swept := swept[k := swept[k].(status := Expired)];
      }
      pending := pending - {k};
    }
  }

  /** checkAndModifyExpiredStatus: the sweep applied to the stored invitations. */
  method CheckAndModifyExpiredStatus(s: Store, now: Time)
    requires s.Valid()
    modifies s
    ensures s.Valid()
    ensures s.invitations == Swept(old(s.invitations), now)
    ensures s.orgs == old(s.orgs) && s.members == old(s.members)
    ensures s.memberRoles == old(s.memberRoles) && s.contexts == old(s.contexts)
  {
    SweptValid(s.invitations, now);
    s.invitations := SweepPending(s.invitations, now);
  }

  // ---- create, get, revoke ----

  /**
   * Saving an invitation cascades to its invitee roles: each is stored under
   * its id in the role table; other entries stay.
   */
  function SavedWith(table: map<Id, MemberRoleEntity>, roles: seq<MemberRoleEntity>): (r: map<Id, MemberRoleEntity>)
    ensures forall k :: k in r <==> k in table || k in TemplateIds(roles)
    ensures forall k :: k in table && k !in TemplateIds(roles) ==> r[k] == table[k]
    ensures NoDup(TemplateIds(roles)) ==> forall i :: 0 <= i < |roles| ==> r[roles[i].id] == roles[i]
    decreases |roles|
  {
    if roles == [] then table
    else
      var ids := TemplateIds(roles);
      assert TemplateIds(roles[1..]) == ids[1..];
      assert forall k :: k in ids <==> k == roles[0].id || k in ids[1..] by {
        assert ids == [ids[0]] + ids[1..];
      }
      assert NoDup(ids) ==> NoDup(ids[1..]) && roles[0].id !in ids[1..] by {
        if NoDup(ids) {
          forall j | 0 <= j < |ids[1..]| ensures ids[1..][j] != roles[0].id {
            assert ids[1..][j] == ids[j + 1];
          }
        }
      }
      var r := SavedWith(table[roles[0].id := roles[0]], roles[1..]);
      assert NoDup(ids) ==> forall i :: 0 <= i < |roles| ==> r[roles[i].id] == roles[i] by {
        if NoDup(ids) {
          forall i | 0 <= i < |roles| ensures r[roles[i].id] == roles[i] {
            if i > 0 {
              assert roles[1..][i - 1] == roles[i];
            }
          }
        }
      }
      r
  }

  /**
   * Storing a new invitation with a fresh id, a fresh token and fresh invitee
   * role ids, together with its invitee roles, keeps the store consistent.
   */
  lemma AddedInvitationValid(orgs: map<Id, OrganizationEntity>, members: map<Id, MemberEntity>,
                             roles: map<Id, MemberRoleEntity>, invitations: map<Id, InvitationEntity>,
                             contexts: map<Id, Id>, e: InvitationEntity)
    requires Consistent(orgs, members, roles, invitations, contexts)
    requires e.id !in invitations && TemplatesValid(e)
    requires forall k :: k in invitations ==> invitations[k].acceptToken != e.acceptToken
    requires forall i :: 0 <= i < |e.inviteeRoles| ==> e.inviteeRoles[i].id !in roles
    ensures Consistent(orgs, members, SavedWith(roles, e.inviteeRoles), invitations[e.id := e], contexts)
  {
    var roles' := SavedWith(roles, e.inviteeRoles);
    var invs := invitations[e.id := e];
    var ids := TemplateIds(e.inviteeRoles);
    assert forall k :: k in roles ==> k !in ids && roles'[k] == roles[k];
    forall k | k in roles' ensures roles'[k].id == k {
      if k !in roles {
        var i :| 0 <= i < |ids| && ids[i] == k;
        assert roles'[e.inviteeRoles[i].id] == e.inviteeRoles[i];
      }
    }
    forall k | k in invs
      ensures forall i :: 0 <= i < |invs[k].inviteeRoles| ==> StoredRow(roles', invs[k].inviteeRoles[i]) {
      if k == e.id {
        assert forall i :: 0 <= i < |e.inviteeRoles| ==> roles'[e.inviteeRoles[i].id] == e.inviteeRoles[i];
      } else {
        assert forall i :: 0 <= i < |invitations[k].inviteeRoles| ==> StoredRow(roles, invitations[k].inviteeRoles[i]);
      }
    }
    assert MembersValid(members, roles') by {
      forall u | u in members ensures forall i :: 0 <= i < |members[u].roles| ==> members[u].roles[i] in roles' {
        assert forall i :: 0 <= i < |members[u].roles| ==> members[u].roles[i] in roles;
      }
    }
  }

  /**
   * create: stores the converted request under its fresh id, its invitee
   * roles as new rows of the role table, and returns its API form; the e-mail
   * notification is fire-and-forget and cannot fail it. The organization is
   * not checked to exist.
   */
  method Create(s: Store, orgId: Id, request: InvitationRequest, freshId: Id, freshToken: Id,
                freshRoleIds: seq<Id>, now: Time, lifeTimeInDays: int) returns (inv: Invitation)
    requires s.Valid()
    requires |freshRoleIds| == |InvitationConverter.RequestRoles(request)| && InvitationConverter.FreshIds(freshRoleIds)
    requires forall i :: 0 <= i < |freshRoleIds| ==> freshRoleIds[i] !in s.memberRoles
    requires freshId !in s.invitations
    requires forall k :: k in s.invitations ==> s.invitations[k].acceptToken != freshToken
    modifies s
    ensures s.Valid()
    ensures var e := InvitationConverter.ToEntity(request, orgId, freshId, freshToken, freshRoleIds, now, lifeTimeInDays);
      && s.invitations == old(s.invitations)[freshId := e]
      && InvitationConverter.ToDomain(e) == Ok(inv)
    ensures inv.state == PendingState && inv.id == freshId && inv.acceptToken == freshToken
    ensures inv.expiresAt == now + lifeTimeInDays * SecondsPerDay
    ensures var e := InvitationConverter.ToEntity(request, orgId, freshId, freshToken, freshRoleIds, now, lifeTimeInDays);
      && s.memberRoles == SavedWith(old(s.memberRoles), e.inviteeRoles)
      && forall i :: 0 <= i < |freshRoleIds| ==> s.memberRoles[freshRoleIds[i]] == e.inviteeRoles[i]
    ensures forall k :: k in old(s.memberRoles) ==> k in s.memberRoles && s.memberRoles[k] == old(s.memberRoles)[k]
    ensures s.orgs == old(s.orgs) && s.members == old(s.members) && s.contexts == old(s.contexts)
  {
    var entity := InvitationConverter.ToEntity(request, orgId, freshId, freshToken, freshRoleIds, now, lifeTimeInDays);
    assert TemplateIds(entity.inviteeRoles) == freshRoleIds;
    AddedInvitationValid(s.orgs, s.members, s.memberRoles, s.invitations, s.contexts, entity);
    s.memberRoles := SavedWith(s.memberRoles, entity.inviteeRoles);
    s.invitations := s.invitations[freshId := entity];
    inv := InvitationConverter.ToDomain(entity).value;
  }

  /** get: the API form of the stored invitation, NotFound, or the conversion's failure. */
  function Get(invitations: map<Id, InvitationEntity>, invitationId: Id): (r: Result<Invitation>)
    ensures invitationId !in invitations <==> r == Err(NotFound)
    ensures invitationId in invitations ==> r == InvitationConverter.ToDomain(invitations[invitationId])
    ensures r.Ok? ==> invitationId in invitations && r.value.id == invitations[invitationId].id
  {
    if invitationId in invitations then InvitationConverter.ToDomain(invitations[invitationId]) else Err(NotFound)
  }

  /**
   * Revoking with the status Accepted stamps no acceptance time, so an
   * invitation never accepted before can no longer be read: get fails, and
   * so does list for its organization.
   */
  lemma RevokedAsAcceptedUnreadable(orgs: map<Id, OrganizationEntity>, invitations: map<Id, InvitationEntity>,
                                    k: Id, reason: Option<string>, now: Time, later: Time)
    requires k in invitations && invitations[k].acceptedAt.None?
    requires invitations[k].organizationId in orgs
    ensures var revoked := invitations[k := invitations[k].(status := Accepted, revocationReason := reason, revokedAt := Some(now))];
      && Get(revoked, k) == Err(NullReference)
      && List(orgs, revoked, invitations[k].organizationId, None, later) == Err(NullReference)
  {
    var revoked := invitations[k := invitations[k].(status := Accepted, revocationReason := reason, revokedAt := Some(now))];
    assert Shown(revoked[k], invitations[k].organizationId, None, later);
  }

  /** Revoking with the status Revoked always reads back, carrying the revocation time and reason. */
  lemma RevokedReadable(invitations: map<Id, InvitationEntity>, k: Id, reason: Option<string>, now: Time)
    requires k in invitations
    ensures var revoked := invitations[k := invitations[k].(status := Revoked, revocationReason := reason, revokedAt := Some(now))];
      && Get(revoked, k).Ok?
      && Get(revoked, k).value.state == RevokedState(now, reason)
  {
    var e := invitations[k].(status := Revoked, revocationReason := reason, revokedAt := Some(now));
    assert InvitationConverter.StateOf(e) == Ok(RevokedState(now, reason));
  }

  /**
   * revoke: NotFound unless the invitation exists within `orgId`; otherwise
   * sets the requested status, the reason and the revocation time, whatever
   * the current status is.
   */
  method Revoke(s: Store, orgId: Id, invitationId: Id, status: InvitationStatus, reason: Option<string>, now: Time)
    returns (r: Outcome)
    requires s.Valid()
    modifies s
    ensures s.Valid()
    ensures r.Pass? <==> invitationId in old(s.invitations) && old(s.invitations)[invitationId].organizationId == orgId
    ensures r.Fail? ==> r.error == NotFound
    ensures r.Fail? ==> unchanged(s)
    ensures r.Pass? ==> s.invitations == old(s.invitations)[invitationId :=
      old(s.invitations)[invitationId].(status := status, revocationReason := reason, revokedAt := Some(now))]
    ensures s.orgs == old(s.orgs) && s.members == old(s.members)
    ensures s.memberRoles == old(s.memberRoles) && s.contexts == old(s.contexts)
  {
    if invitationId !in s.invitations || s.invitations[invitationId].organizationId != orgId {
      return Fail(NotFound);
    }
    var invitation := s.invitations[invitationId];
    var revoked := invitation.(status := status, revocationReason := reason, revokedAt := Some(now));
    RestampedValid(s.memberRoles, s.invitations, invitationId, revoked);
    s.invitations := s.invitations[invitationId := revoked];
    r := Pass;
  }
}
