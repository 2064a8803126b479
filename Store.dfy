/**
 * The domain store: the repositories the services read and write, held as maps
 * from id to record. Organization membership is the link set on each
 * organization; a member's roles are links into the member-role table.
 */
module Store {
  import opened Common
  import opened Entities

  /** Every organization is stored under its id and links only to stored members. */
  ghost predicate OrgsValid(orgs: map<Id, OrganizationEntity>, members: map<Id, MemberEntity>) {
    forall k :: k in orgs ==> orgs[k].id == k && orgs[k].members <= members.Keys
  }

  /** Every member is stored under its id and links, without repetition, only to stored roles. */
  ghost predicate MembersValid(members: map<Id, MemberEntity>, roles: map<Id, MemberRoleEntity>) {
    forall k :: k in members ==>
      && members[k].id == k
      && NoDup(members[k].roles)
      && (forall i :: 0 <= i < |members[k].roles| ==> members[k].roles[i] in roles)
  }

  ghost predicate RolesKeyed(roles: map<Id, MemberRoleEntity>) {
    forall k :: k in roles ==> roles[k].id == k
  }

  function TemplateIds(templates: seq<MemberRoleEntity>): (ids: seq<Id>)
    ensures |ids| == |templates|
    ensures forall i :: 0 <= i < |templates| ==> ids[i] == templates[i].id
  {
    seq(|templates|, i requires 0 <= i < |templates| => templates[i].id)
  }

  /** No two invitations share an accept token. */
  ghost predicate TokensUnique(invitations: map<Id, InvitationEntity>) {
    forall a, b :: a in invitations && b in invitations && invitations[a].acceptToken == invitations[b].acceptToken ==> a == b
  }

  /**
   * The invitee roles of an invitation have distinct ids and are active roles
   * of the invitation's organization.
   */
  ghost predicate TemplatesValid(invitation: InvitationEntity) {
    && NoDup(TemplateIds(invitation.inviteeRoles))
    && forall i :: 0 <= i < |invitation.inviteeRoles| ==>
         invitation.inviteeRoles[i].organizationId == invitation.organizationId && invitation.inviteeRoles[i].active
  }

  ghost predicate InvitationsValid(invitations: map<Id, InvitationEntity>) {
    && (forall k :: k in invitations ==> invitations[k].id == k && TemplatesValid(invitations[k]))
    && TokensUnique(invitations)
  }

  /**
   * `e` is stored in the role table under its id; the stored row may since
   * have been switched off, and differs from `e` in nothing else.
   */
  ghost predicate StoredRow(roles: map<Id, MemberRoleEntity>, e: MemberRoleEntity) {
    e.id in roles && roles[e.id].(active := e.active) == e
  }

  /**
   * The invitee roles of every invitation are rows of the role table, saved
   * together with the invitation.
   */
  ghost predicate TemplatesStored(roles: map<Id, MemberRoleEntity>, invitations: map<Id, InvitationEntity>) {
    forall k :: k in invitations ==>
      forall i :: 0 <= i < |invitations[k].inviteeRoles| ==> StoredRow(roles, invitations[k].inviteeRoles[i])
  }

  /**
   * Replacing one stored invitation by a record with the same id, token,
   * organization and invitee roles keeps the invitations valid and their
   * invitee roles stored.
   */
  lemma RestampedValid(roles: map<Id, MemberRoleEntity>, invitations: map<Id, InvitationEntity>, k: Id, x: InvitationEntity)
    requires InvitationsValid(invitations) && TemplatesStored(roles, invitations) && k in invitations
    requires x.id == k && x.acceptToken == invitations[k].acceptToken
    requires x.organizationId == invitations[k].organizationId && x.inviteeRoles == invitations[k].inviteeRoles
    ensures InvitationsValid(invitations[k := x]) && TemplatesStored(roles, invitations[k := x])
  {
    var invs := invitations[k := x];
    forall a, b | a in invs && b in invs && invs[a].acceptToken == invs[b].acceptToken ensures a == b {
      assert invitations[a].acceptToken == invs[a].acceptToken && invitations[b].acceptToken == invs[b].acceptToken;
    }
    forall a | a in invs ensures invs[a].id == a && TemplatesValid(invs[a]) {
      assert invs[a].inviteeRoles == invitations[a].inviteeRoles;
    }
  }

  /** The invariant of the store, on the five tables. */
  ghost predicate Consistent(orgs: map<Id, OrganizationEntity>, members: map<Id, MemberEntity>,
                             roles: map<Id, MemberRoleEntity>, invitations: map<Id, InvitationEntity>,
                             contexts: map<Id, Id>) {
    && OrgsValid(orgs, members)
    && MembersValid(members, roles)
    && RolesKeyed(roles)
    && InvitationsValid(invitations)
    && TemplatesStored(roles, invitations)
    && (forall u :: u in contexts ==> contexts[u] in orgs)
  }

  class Store {
    var orgs: map<Id, OrganizationEntity>
    var members: map<Id, MemberEntity>
    var memberRoles: map<Id, MemberRoleEntity>
    var invitations: map<Id, InvitationEntity>
    /** MemberContextEntity rows: member id to the id of its current organization. */
    var contexts: map<Id, Id>

    ghost predicate Valid()
      reads this
    {
      Consistent(orgs, members, memberRoles, invitations, contexts)
    }

    constructor ()
      ensures Valid()
      ensures orgs == map[] && members == map[] && memberRoles == map[]
      ensures invitations == map[] && contexts == map[]
    {
      orgs, members, memberRoles, invitations, contexts := map[], map[], map[], map[], map[];
    }
  }

  /** InvitationRepository.findByAcceptToken: the one invitation holding `token`, if any. */
  function InvitationWithToken(invitations: map<Id, InvitationEntity>, token: Id): (r: Option<InvitationEntity>)
    requires InvitationsValid(invitations)
    ensures r.Some? <==> exists k :: k in invitations && invitations[k].acceptToken == token
    ensures r.Some? ==> r.value.id in invitations && invitations[r.value.id] == r.value && r.value.acceptToken == token
  {
    if exists k :: k in invitations && invitations[k].acceptToken == token then
      var k :| k in invitations && invitations[k].acceptToken == token;
      Some(invitations[k])
    else None
  }
}
