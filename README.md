# org-manager: organizations, memberships, invitations and access checks in Dafny

This project models the core of org-manager, a service that keeps
organizations, their members and the members' roles. A user sees the
organizations they own or belong to, page by page. An organization invites
people by e-mail. An invitee redeems the invitation's accept token, joins the
organization and receives the invited roles. Members can be given roles,
lose roles and be expelled. A member keeps a "current organization" context.
Before a guarded operation, the request's resource descriptor is turned into a
policy context and handed to an external decision point (the bouncer).

Modules:

- `Common`: `Option`/`Result`/`Outcome`, the error kinds, ASCII case folding and the id order.
- `Entities`, `Domain`: the persisted records and the API records.
- `Store`: a class holding the five tables (organizations, members, member roles,
  invitations and member contexts) as maps, with the store invariant `Valid()`.
- `OrganizationService`: pagination, lookups, role assignment and removal,
  expulsion, joining, member contexts, cancelling and reading a membership.
  - The operations that change the store are methods that take the `Store` and modify it.
  - Each method's postcondition is written in terms of named state transitions
    (`WithRole`, `Deactivated`, `WithoutOrg`, `Without`, `AddedTo`,
    `RemovedFrom`, `Accept`).
  - Lemmas prove what these transitions promise.
- `InvitationService`: validation on redeem, lookup by token, the list filter,
  the expiry sweep (a loop), create, get and revoke.
- `ResourceAccess`: both `checkRights` variants.
  - The bouncer and the token-to-party resolver are function parameters.
  - Each method returns the context it sent to the bouncer, so its postcondition can describe that context.
- `BouncerContextConverter`, `MemberRoleConverter`, `MemberConverter`,
  `OrganizationConverter`, `InvitationConverter`: the entity/API mappers.
- `OrganizationRoleService`: reading one catalogue role, or all of them.

Modelling choices:

- **Ids, tokens and time.** Ids and accept tokens, which the code draws from a
  UUID generator, are fresh-value parameters (`freshId`, `freshToken`,
  `freshRoleIds`). Their freshness is a precondition. A new id is not a key of
  its table. A new accept token is held by no stored invitation. A new role id
  is not a key of the member-role table. The clock is a `now: Time` parameter, an integer in seconds.
- **Invitee roles.** Creating an invitation saves its invitee roles as new
  rows of the member-role table (`InvitationService.SavedWith`). The
  invitation keeps a copy of each row. A copy differs from its stored row at
  most in `active`, which no API form shows (`Store.TemplatesStored`). A join
  writes no role row: it links the rows saved with the invitation as they are
  now. So a join never changes a role another member links (`JoinLeavesOthers`).
- **Relationships.** Organization membership is a set of member ids on the
  organization. A member's roles are a duplicate-free sequence of ids into the
  member-role table, so a role switched off through one path is switched off
  for every path.
- **Repository queries.**
  - `findAllByMember` is modelled by `Matching` over an index sorted by id: the
    organizations the user owns or belongs to, strictly after the continuation
    id, in ascending id order.
  - `findByAcceptToken` is modelled by `Store.InvitationWithToken`; accept tokens are unique.
  - `getOrgMemberList` is a parameter of `ListMembers`.
  - An invitation is expired when `expiresAt < now`. The expiry sweep reads the clock once, for the whole sweep,
    where the code reads it again for each invitation.
- **Collection order.** Java sets iterate in an unspecified order. The model
  fixes one: link order for a member's roles, and first occurrence for the
  groups of `MemberConverter.toDomain(list)`.

## Model

| member | source | states |
|---|---|---|
| OrganizationService.DefaultedLimit | src/main/java/dev/vality/orgmanager/service/OrganizationService.java:150-153 | a missing or zero limit becomes DEFAULT_ORG_LIMIT (20); any other limit is kept |
| OrganizationService.EffectiveToken | src/main/java/dev/vality/orgmanager/service/OrganizationService.java:166-171 | a null or empty continuation id means "from the start" |
| OrganizationService.MatchingSelects | src/main/java/dev/vality/orgmanager/service/OrganizationService.java:166-171 | the repository query selects exactly the organizations the user owns or belongs to that lie after the token, and keeps them in ascending id order |
| OrganizationService.LimitOrganizations | src/main/java/dev/vality/orgmanager/service/OrganizationService.java:173-181 | the page is the prefix of length min(limit, n); a negative limit is an error (Stream.limit throws) |
| OrganizationService.ContinuationId | src/main/java/dev/vality/orgmanager/service/OrganizationService.java:183-188 | no token exactly when the page is the whole list, otherwise the id of the page's last entry |
| OrganizationService.FindAllOrganizations | src/main/java/dev/vality/orgmanager/service/OrganizationService.java:149-164 | the result is the first min(limit, n) matching organizations in order, converted; the token is absent iff n <= limit and is otherwise the id of the limit-th organization; the default limit applies to null/0 |
| OrganizationService.Resume | src/main/java/dev/vality/orgmanager/service/OrganizationService.java:183-188 | resuming after the i-th matching organization yields exactly the matching organizations after it |
| OrganizationService.PageLast | src/main/java/dev/vality/orgmanager/service/OrganizationService.java:175-177 | when everything left fits, one page holds it all and carries no token |
| OrganizationService.PageFull | src/main/java/dev/vality/orgmanager/service/OrganizationService.java:173-188 | a full page carries a token, and the next request with that token reads exactly the organizations after the page |
| OrganizationService.Crawl | src/main/java/dev/vality/orgmanager/service/OrganizationService.java:149-164 | following tokens until none is returned gives pages of the shape `PagedAs`: full pages with a token, then one page with the rest and no token |
| OrganizationService.CrawlFlattens | src/main/java/dev/vality/orgmanager/service/OrganizationService.java:149-188 | the pages concatenated are all matching organizations, in order, with no loss or repetition |
| OrganizationService.PagedShape | src/main/java/dev/vality/orgmanager/service/OrganizationService.java:173-188 | responses of that shape number PageCount(n, limit); all but the last are full and have a token; the last has none and holds the remainder |
| OrganizationService.CrawlDrains | src/main/java/dev/vality/orgmanager/service/OrganizationService.java:149-188 | the pages cover everything, there are ceil(n/limit) of them (one empty page for n = 0), every page but the last is full with a token, and the last holds n - (pages-1)*limit with no token |
| OrganizationService.TenByFour | src/main/java/dev/vality/orgmanager/service/OrganizationService.java:149-188 | 10 matching organizations read 4 at a time give pages of 4, 4 and 2, the last without a token |
| OrganizationService.FindById | src/main/java/dev/vality/orgmanager/service/OrganizationService.java:312-315 | the stored organization, or NotFound exactly when it is missing |
| OrganizationService.Get | src/main/java/dev/vality/orgmanager/service/OrganizationService.java:67-71 | present iff stored, and then the stored organization's API form |
| OrganizationService.Create | src/main/java/dev/vality/orgmanager/service/OrganizationService.java:48-58 | stores the converted organization under the fresh id (owner and party are the creator) and returns its API form; nothing else changes; the store stays valid |
| OrganizationService.Modify | src/main/java/dev/vality/orgmanager/service/OrganizationService.java:60-65 | NotFound with nothing changed for an unknown organization; otherwise only its name changes and the renamed organization is returned |
| OrganizationService.GetOrgIdByInvitationToken | src/main/java/dev/vality/orgmanager/service/OrganizationService.java:305-310 | the token's error when redeeming fails; otherwise the invitation's organization id when that organization exists, NotFound when it does not |
| OrganizationService.RolesInOrg | src/main/java/dev/vality/orgmanager/service/OrganizationService.java:82-90 | only roles that belong to the organization and are active, each drawn from the member's links, and every such linked role is included |
| OrganizationService.RolesInOrgView | src/main/java/dev/vality/orgmanager/service/OrganizationService.java:78-90 | the converted roles are exactly the conversions of the member's active roles of that organization |
| OrganizationService.MemberInOrg | src/main/java/dev/vality/orgmanager/service/OrganizationService.java:77-79 | id and e-mail from the member; roles exactly the converted active roles of the organization |
| OrganizationService.GetOrgMember | src/main/java/dev/vality/orgmanager/service/OrganizationService.java:74-98 | NotFound iff the organization is missing or does not list the user; otherwise the member with exactly its active roles of that organization |
| OrganizationService.GetOrgMemberListsRoles | src/main/java/dev/vality/orgmanager/service/OrganizationService.java:74-86 | every active in-organization role among the member's links is listed by getOrgMember |
| OrganizationService.ListMembers | src/main/java/dev/vality/orgmanager/service/OrganizationService.java:138-147 | NotFound iff the organization is missing; otherwise exactly one member per distinct (id, e-mail) among the rows, each holding one role per row of its group, in row order; as many roles in total as rows |
| OrganizationService.AssignAppendsRole | src/main/java/dev/vality/orgmanager/service/OrganizationService.java:104-105 | linking a fresh active role of the organization extends the member's roles in it by exactly that role, at the end |
| OrganizationService.AssignKeepsConsistent | src/main/java/dev/vality/orgmanager/service/OrganizationService.java:100-107 | linking a fresh role to a stored member keeps the store invariant |
| OrganizationService.WithRole | src/main/java/dev/vality/orgmanager/service/OrganizationService.java:105 | the member gains the role link at the end; other members are unchanged |
| OrganizationService.AssignedRoleListed | src/main/java/dev/vality/orgmanager/service/OrganizationService.java:100-107 | after assignment the store is consistent and getOrgMember lists the old roles followed by the new one |
| OrganizationService.AssignMemberRole | src/main/java/dev/vality/orgmanager/service/OrganizationService.java:100-107 | NotFound (nothing changed) unless the user is a member of the organization; otherwise exactly one new active role of the organization is stored and linked, with no duplicate check, and returned |
| OrganizationService.Deactivated | src/main/java/dev/vality/orgmanager/service/OrganizationService.java:119-124 | the member's roles of the organization become inactive; every other table entry is unchanged |
| OrganizationService.DeactivateOrgMemberRoles | src/main/java/dev/vality/orgmanager/service/OrganizationService.java:119-124 | the loop over the member's roles yields exactly `Deactivated` |
| OrganizationService.WithoutOrg | src/main/java/dev/vality/orgmanager/service/OrganizationService.java:114-115 | removeIf keeps exactly the links to roles of other organizations, without duplicates |
| OrganizationService.ExpelledHasNoRolesInOrg | src/main/java/dev/vality/orgmanager/service/OrganizationService.java:109-117 | after the expulsion the member has no role of the organization left |
| OrganizationService.ExpelOrgMember | src/main/java/dev/vality/orgmanager/service/OrganizationService.java:109-117 | NotFound (nothing changed) unless the user is a member of the organization; otherwise that organization's roles are switched off and unlinked, other roles stay, the user leaves the organization, and getOrgMember then fails NotFound |
| OrganizationService.Without | src/main/java/dev/vality/orgmanager/service/OrganizationService.java:135 | Set.remove: every link except the removed one, duplicate-free |
| OrganizationService.RemovalCount | src/main/java/dev/vality/orgmanager/service/OrganizationService.java:126-136 | switching off and unlinking a role lowers the active in-organization count by one exactly when that role was one of them |
| OrganizationService.RemoveKeepsConsistent | src/main/java/dev/vality/orgmanager/service/OrganizationService.java:126-136 | switching off and unlinking a stored role keeps the store invariant |
| OrganizationService.RemoveMemberRole | src/main/java/dev/vality/orgmanager/service/OrganizationService.java:126-136 | NotFound unless the user is a member; LastRole iff exactly one active in-organization role; NotFound for an unknown role id; otherwise the role, looked up globally, is switched off and unlinked; a member with at least one role keeps at least one |
| OrganizationService.AddAll | src/main/java/dev/vality/orgmanager/service/OrganizationService.java:244 | Set.addAll: the union of the links, old links first, duplicate-free |
| OrganizationService.FindOrCreateMember | src/main/java/dev/vality/orgmanager/service/OrganizationService.java:288-297 | the stored member, or a new one with the given id and e-mail and no roles |
| OrganizationService.JoinedMember | src/main/java/dev/vality/orgmanager/service/OrganizationService.java:243-244 | the found or created member, with its links followed by the invitee roles |
| OrganizationService.AddedTo | src/main/java/dev/vality/orgmanager/service/OrganizationService.java:245 | the user joins exactly that organization's members; nothing else changes |
| OrganizationService.Accept | src/main/java/dev/vality/orgmanager/service/OrganizationService.java:299-303 | the invitation becomes Accepted, at `now`, by the user |
| OrganizationService.JoinedMembership | src/main/java/dev/vality/orgmanager/service/OrganizationService.java:247-251 | the returned member carries the invitation's roles only, and the returned organization is the joined one |
| OrganizationService.AcceptedTokenSpent | src/main/java/dev/vality/orgmanager/service/InvitationService.java:117-127 | after acceptance, redeeming the same token fails at any time |
| OrganizationService.TokenSpentForever | src/main/java/dev/vality/orgmanager/service/OrganizationService.java:233-252 | for every later time the token of an accepted invitation no longer redeems |
| OrganizationService.JoinedMembersValid | src/main/java/dev/vality/orgmanager/service/OrganizationService.java:243-244 | the joined member links only stored roles, once each, since the invitee rows were saved at create |
| OrganizationService.ListedIffActive | src/main/java/dev/vality/orgmanager/service/OrganizationService.java:74-98 | a stored role of the organization that the member links is listed by getOrgMember exactly when its row is active |
| OrganizationService.AddedToValid | src/main/java/dev/vality/orgmanager/service/OrganizationService.java:245 | adding a stored member keeps organizations linking stored members only |
| OrganizationService.JoinKeepsConsistent | src/main/java/dev/vality/orgmanager/service/OrganizationService.java:233-252 | the join's updates (member links, organization members, acceptance; no role row written) together keep the store invariant |
| OrganizationService.JoinedState | src/main/java/dev/vality/orgmanager/service/OrganizationService.java:233-252 | after a join the store is consistent and the token is spent forever; getOrgMember finds the user in the organization and lists each invitee role exactly when its stored row is still active; the returned roles are the conversions of the stored rows |
| OrganizationService.JoinLeavesOthers | src/main/java/dev/vality/orgmanager/service/OrganizationService.java:242-246 | a join leaves every other user's getOrgMember answer, in every organization, as it was |
| OrganizationService.Enrol | src/main/java/dev/vality/orgmanager/service/OrganizationService.java:242-251 | the member found or created gains links to the invitee rows, joins the organization, the invitation is accepted; role table and contexts unchanged; the token is spent |
| OrganizationService.JoinOrganization | src/main/java/dev/vality/orgmanager/service/OrganizationService.java:233-252 | succeeds iff the token redeems, the e-mail matches case-insensitively and the organization exists; otherwise the token's error, then AccessDenied, then NotFound, each with nothing changed; on success the tables are updated as `Enrol` states, the role table is not written and the token is spent |
| OrganizationService.FindMemberContext | src/main/java/dev/vality/orgmanager/service/OrganizationService.java:280-286 | NotFound iff the user has no context; otherwise the id of the stored organization the context points to |
| OrganizationService.SwitchMemberContext | src/main/java/dev/vality/orgmanager/service/OrganizationService.java:254-278 | NotFound iff the organization is missing, or the user has no context and neither is a member nor owns an organization; otherwise the user's context points to the organization; other users' contexts are unchanged |
| OrganizationService.RemovedFrom | src/main/java/dev/vality/orgmanager/service/OrganizationService.java:204-207 | the user leaves exactly that organization's members; other members and organizations are unchanged |
| OrganizationService.CancelledMembership | src/main/java/dev/vality/orgmanager/service/OrganizationService.java:190-210 | after the removal the store is consistent, getOrgMember fails NotFound for that pair, and every other (user, organization) pair reads as before |
| OrganizationService.CancelOrgMembership | src/main/java/dev/vality/orgmanager/service/OrganizationService.java:190-210 | NotFound iff the organization or the member record is missing (nothing changed); otherwise only the membership link is removed |
| OrganizationService.GetMembership | src/main/java/dev/vality/orgmanager/service/OrganizationService.java:212-231 | NotFound iff the organization or member record is missing; otherwise the member with all its linked roles, each the converted stored role, in link order, and the converted organization |
| OrganizationService.MembershipOutsideOrganization | src/main/java/dev/vality/orgmanager/service/OrganizationService.java:190-231 | after cancelling, getMembership still answers while getOrgMember fails NotFound |
| InvitationService.ValidateInvitation | src/main/java/dev/vality/orgmanager/service/InvitationService.java:117-127 | expired first (carrying expiresAt), then Revoked (reason), then Accepted (acceptedAt, or a null-reference failure when acceptedAt is missing); any other invitation passes unchanged |
| InvitationService.FindByToken | src/main/java/dev/vality/orgmanager/service/InvitationService.java:110-115 | NotFound when no invitation holds the token; otherwise the validation of the one that does |
| Store.InvitationWithToken | src/main/java/dev/vality/orgmanager/service/InvitationService.java:111-112 | the unique stored invitation with the token, if any |
| InvitationService.List | src/main/java/dev/vality/orgmanager/service/InvitationService.java:65-87 | NotFound iff the organization is missing; a null reference iff some selected invitation that is not Pending-and-expired does not convert; otherwise exactly those invitations, converted |
| InvitationService.ListKeepsTerminal | src/main/java/dev/vality/orgmanager/service/InvitationService.java:74-81 | with no status filter, an Accepted or Revoked invitation, however old, is listed, or its failed conversion fails the list |
| InvitationService.ListDropsExpiredPending | src/main/java/dev/vality/orgmanager/service/InvitationService.java:129-133 | a Pending invitation past its expiry is never in a list that succeeds |
| InvitationService.Swept | src/main/java/dev/vality/orgmanager/service/InvitationService.java:100-108 | exactly the Pending invitations with expiry before now change, and only to Expired |
| InvitationService.SweepIdempotent | src/main/java/dev/vality/orgmanager/service/InvitationService.java:100-108 | sweeping twice at the same time changes nothing more |
| InvitationService.SweptValid | src/main/java/dev/vality/orgmanager/service/InvitationService.java:100-108 | the sweep keeps the invitation invariants (ids, unique tokens, role templates) |
| InvitationService.SweepPending | src/main/java/dev/vality/orgmanager/service/InvitationService.java:102-107 | the loop over Pending invitations computes exactly `Swept` |
| InvitationService.CheckAndModifyExpiredStatus | src/main/java/dev/vality/orgmanager/service/InvitationService.java:100-108 | the stored invitations become `Swept`; the other tables are unchanged |
| InvitationService.SavedWith | src/main/java/dev/vality/orgmanager/service/InvitationService.java:43 | the table after saving the rows: its keys are the old keys and the new ids, every other row is unchanged, and each saved id holds its row |
| InvitationService.AddedInvitationValid | src/main/java/dev/vality/orgmanager/service/InvitationService.java:38-48 | saving a new invitation with fresh id and token, together with its invitee rows under fresh ids, keeps the store invariant: tokens unique and every invitee role stored |
| InvitationService.Create | src/main/java/dev/vality/orgmanager/service/InvitationService.java:38-48 | stores the converted request under its fresh id, saves each invitee role as a new row under its fresh role id, leaves every old row as it was, and returns its API form, Pending, expiring lifeTimeInDays later; nothing else changes |
| InvitationService.Get | src/main/java/dev/vality/orgmanager/service/InvitationService.java:50-63 | NotFound iff missing; otherwise the stored invitation's conversion, which fails with a null reference where toDomain does |
| Store.RestampedValid | src/main/java/dev/vality/orgmanager/service/InvitationService.java:89-98 | rewriting one invitation's status fields keeps tokens unique and its invitee roles valid and stored |
| InvitationService.Revoke | src/main/java/dev/vality/orgmanager/service/InvitationService.java:89-98 | succeeds iff the invitation exists within the organization, and fails only with NotFound, changing nothing; on success status, reason and revokedAt = now are set, whatever the current status |
| InvitationService.RevokedAsAcceptedUnreadable | src/main/java/dev/vality/orgmanager/service/InvitationService.java:89-98 | revoking an invitation never accepted with the status Accepted makes get fail with a null reference, and list for its organization too |
| InvitationService.RevokedReadable | src/main/java/dev/vality/orgmanager/service/InvitationService.java:89-98 | revoking with the status Revoked always reads back, with the revocation time and reason |
| InvitationConverter.ToEntity | src/main/java/com/rbkmoney/orgmanager/converter/InvitationConverter.java:35-62 | a Pending invitation of the organization created now, expiring lifeTimeInDays later; no invitee gives null type, "" e-mail and no roles; each role is an active role of the organization with its fresh id |
| InvitationConverter.StateOf | src/main/java/com/rbkmoney/orgmanager/converter/InvitationConverter.java:64-86 | the variant follows the status; Accepted carries acceptedAt and member, Revoked carries revokedAt and reason, the others carry neither; fails with a null reference exactly when the Accepted or Revoked timestamp is missing |
| InvitationConverter.StateOfRecoversEntity | src/main/java/com/rbkmoney/orgmanager/converter/InvitationConverter.java:64-86 | a converted state gives back the stored status and the stamp of that status, and depends on nothing else |
| InvitationConverter.ConvertRoles | src/main/java/com/rbkmoney/orgmanager/converter/InvitationConverter.java:97-100 | exactly the conversions of the invitee roles |
| InvitationConverter.ToDomain | src/main/java/com/rbkmoney/orgmanager/converter/InvitationConverter.java:64-103 | fails, with a null reference, exactly when the state does; otherwise id, times, token, metadata, contact and converted roles copied whatever the status, and the state follows the status |
| InvitationConverter.CreatedInvitationView | src/main/java/com/rbkmoney/orgmanager/converter/InvitationConverter.java:35-100 | a converted request always converts back, Pending, with exactly the requested roles, each with its fresh id |
| ResourceAccess.CallBouncer | src/main/java/dev/vality/orgmanager/service/ResourceAccessServiceImpl.java:93-99 | passes iff the decision is Allowed; a denial is AccessDenied "No rights to perform <op>"; a failed call is a dependency failure |
| ResourceAccess.BuildBouncerContextDto | src/main/java/dev/vality/orgmanager/service/ResourceAccessServiceImpl.java:71-87 | operation name, organization id, member id, role and scope resource, invitation id and e-mail copied from the descriptor |
| ResourceAccess.FindMemberRole | src/main/java/dev/vality/orgmanager/service/MemberRoleServiceImpl.java:21-25 | the stored role's API form, NotFound iff missing |
| ResourceAccess.CheckRights | src/main/java/dev/vality/orgmanager/service/ResourceAccessServiceImpl.java:29-39 | disabled: passes without asking; otherwise asks with a context holding only the operation name, and passes only on Allowed |
| ResourceAccess.CheckRightsOn | src/main/java/dev/vality/orgmanager/service/ResourceAccessServiceImpl.java:41-69 | disabled: passes without asking; the bouncer is asked iff every reference resolves; missing organization, then failing token, then missing member role abort first; the organization id is the token's party, else the organization's party; the role comes from the stored role (scope resource only when scoped), else from the descriptor; passes only on Allowed |
| BouncerContextConverter.ToOrgRole | src/main/java/dev/vality/orgmanager/converter/BouncerContextConverter.java:49-58 | role id copied; shop scope present iff resourceId is set, with that shop |
| BouncerContextConverter.ToOrganization | src/main/java/dev/vality/orgmanager/converter/BouncerContextConverter.java:36-47 | id, owner, party copied; roles null iff the role set is null or empty; otherwise exactly the roles of this organization, possibly none |
| BouncerContextConverter.ToUser | src/main/java/dev/vality/orgmanager/converter/BouncerContextConverter.java:21-34 | id and e-mail null for no member; exactly one converted entry per given organization |
| BouncerContextConverter.ConvertedOrganizationsSize | src/main/java/dev/vality/orgmanager/converter/BouncerContextConverter.java:26-33 | organizations with distinct ids convert to as many distinct entries |
| BouncerContextConverter.ToUserOneEntryPerOrganization | src/main/java/dev/vality/orgmanager/converter/BouncerContextConverter.java:21-34 | the user has exactly as many organization entries as organizations given |
| MemberRoleConverter.ToEntity | src/main/java/dev/vality/orgmanager/converter/MemberRoleConverter.java:18-28 | fresh non-empty id, the organization, active; scope kind and resource copied when scoped, both null otherwise |
| MemberRoleConverter.ScopeOf | src/main/java/dev/vality/orgmanager/converter/MemberRoleConverter.java:31-36 | a scope exactly when a scope kind is stored, carrying the resource |
| MemberRoleConverter.ToDomain | src/main/java/dev/vality/orgmanager/converter/MemberRoleConverter.java:30-41 | id and role copied; scope present iff scopeId is set, carrying resourceId |
| MemberRoleConverter.FromRow | src/main/java/dev/vality/orgmanager/converter/MemberRoleConverter.java:43-54 | the row's member-role id becomes the role's id; role and scope as in toDomain |
| MemberRoleConverter.RequestRoundTrip | src/main/java/dev/vality/orgmanager/converter/MemberRoleConverter.java:18-41 | toEntity then toDomain keeps role and scope; only the id is new |
| MemberRoleConverter.EntityRoundTrip | src/main/java/dev/vality/orgmanager/converter/MemberRoleConverter.java:18-41 | an active entity with no resource outside a scope is rebuilt exactly |
| MemberRoleConverter.EntityRoundTripLoses | src/main/java/dev/vality/orgmanager/converter/MemberRoleConverter.java:18-41 | an inactive entity, or a resource without a scope kind, is not rebuilt |
| MemberConverter.ToDomainWithRoles | src/main/java/dev/vality/orgmanager/converter/MemberConverter.java:33-40 | id and e-mail copied; one role per given role, each its conversion, in order |
| MemberConverter.IgnoresEntityRoles | src/main/java/dev/vality/orgmanager/converter/MemberConverter.java:33-40 | the entity's own role links play no part |
| MemberConverter.ToDomain | src/main/java/dev/vality/orgmanager/converter/MemberConverter.java:24-31 | id and e-mail copied; one role per linked role, each the conversion of the stored role with the linked id |
| MemberConverter.GroupRowsCorrect | src/main/java/dev/vality/orgmanager/converter/MemberConverter.java:42-49 | grouping gives one group per distinct (id, e-mail), each holding exactly its rows in order, and keeps the row count |
| MemberConverter.TotalRolesOfGroups | src/main/java/dev/vality/orgmanager/converter/MemberConverter.java:51-61 | the members built from the groups hold as many roles as the groups hold rows |
| MemberConverter.ToDomainRows | src/main/java/dev/vality/orgmanager/converter/MemberConverter.java:42-61 | exactly one member per distinct (id, e-mail) among the rows, each with one role per row of its group, in order; total roles equal the row count |
| OrganizationConverter.ToEntity | src/main/java/dev/vality/orgmanager/converter/OrganizationConverter.java:20-31 | fresh id, name and metadata copied, owner = party = creator, no members and no catalogue |
| OrganizationConverter.ToDomain | src/main/java/dev/vality/orgmanager/converter/OrganizationConverter.java:33-42 | id, creation time, name, owner, party and metadata copied unchanged |
| OrganizationConverter.CreatedOrganizationView | src/main/java/dev/vality/orgmanager/converter/OrganizationConverter.java:20-42 | a created organization reads back with the request's name and metadata and owner = party = creator |
| OrganizationConverter.ToDomainDeterminedByFields | src/main/java/dev/vality/orgmanager/converter/OrganizationConverter.java:33-42 | the API form depends on the six copied fields only |
| OrganizationRoleService.FindRole | src/main/java/dev/vality/orgmanager/service/OrganizationRoleService.java:31-35 | found iff some catalogue entry has the role id, and then that entry |
| OrganizationRoleService.Get | src/main/java/dev/vality/orgmanager/service/OrganizationRoleService.java:27-35 | NotFound for an unknown organization before any lookup; NotFound iff no entry matches; otherwise a matching entry's role |
| OrganizationRoleService.List | src/main/java/dev/vality/orgmanager/service/OrganizationRoleService.java:38-55 | NotFound iff the organization is missing; otherwise exactly one role per catalogue entry, in order |

## Left out

- HTTP controllers, exception-to-status mapping, Spring/Keycloak configuration: they route requests only.
- The bouncer RPC (BouncerServiceImpl) is the `decide` parameter; its transport and serialization are not modelled.
- Party creation in the party management service, called by organization create, is not modelled.
- The notification e-mail after invitation create (MailMessageSender) is fire-and-forget I/O and is left out; it cannot fail create.
- OrganizationRoleConverter maps generated enums that are not shown; `OrganizationRoleService.ToRole` copies the fields.
- JSON metadata is an opaque optional string; time is an integer.
- Zone offsets are left out. The services stamp acceptedAt and revokedAt from `LocalDateTime.now()`, and the converter reads them back with `OffsetDateTime.from`, which needs an offset that a local date-time does not carry. The model assumes that conversion succeeds whenever the value is present; only a missing value fails (`NullReference`).
- `Common.EqualsIgnoreCase` folds ASCII letters only; Java's equalsIgnoreCase also folds other scripts.
- Transactions and concurrency, including the race on the last-role count between concurrent removals, are out of scope for a sequential model.
- The operation name, which the code takes from the call stack, is an input `op`.
- `ResourceAccess.CheckRightsOn`: a null resource descriptor is not modelled.
- `ResourceAccess.CheckRightsOn`: the token-to-party lookup (getPartyByInvitationToken) is not part of the shown OrganizationService. It is the resolver parameter `partyOf`, and its errors propagate unchanged.
- OrganizationService.Enrol: its postcondition gives the new tables and the spent token. Two facts are proved about those tables rather than restated in the method. `OrganizationService.JoinedState` proves that getOrgMember then lists each invitee role exactly when its stored row is still active. `OrganizationService.JoinLeavesOthers` proves that other users are unaffected.
- OrganizationService.JoinOrganization: as for Enrol; the invitee-role listing is `JoinedState`.
- OrganizationService.Matching: the repository query itself is not shown; its contents are an assumption, and its selection is stated by `MatchingSelects`.
- OrganizationService.FindAllOrganizations: the index is a snapshot; pages of a crawl are read from one unchanging index.
- InvitationService.List: returns a set; the repository order of the list is not modelled.
- InvitationService.Create: the organization is not checked to exist, as in the code; the notification is left out.
- OrganizationService.CancelOrgMembership: the `userEmail` argument is unused by the code and absent here.
- OrganizationService.GetMembership: the `userEmail` argument is unused by the code and absent here.
- In these places the model follows the code:
  - `revoke` does not check the current status; it sets whatever status is requested.
  - `cancelOrgMembership` leaves the member's roles in the organization linked and active.
  - `getMembership` does not require the member to belong to the organization, and returns the member's roles of every organization.
