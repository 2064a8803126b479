/**
 * OrganizationService: the organizations a user can see, page by page; a
 * member's roles within one organization; assigning, removing and expelling;
 * joining through an invitation; the member's current-organization context.
 */
module OrganizationService {
  import opened Common
  import opened Entities
  import opened Domain
  import opened Store
  import MemberConverter
  import MemberRoleConverter
  import OrganizationConverter
  import InvitationService

  // ==== cursor pagination (findAllOrganizations) ====

  /** DEFAULT_ORG_LIMIT. */
  const DefaultOrgLimit: int := 20

  function Min(a: int, b: int): int {
    if a <= b then a else b
  }

  /** The organization index, as the repository reads it: ascending by id. */
  predicate SortedById(index: seq<OrganizationEntity>) {
    forall i, j :: 0 <= i < j < |index| ==> Below(index[i].id, index[j].id)
  }

  /** Organization ids are UUIDs, never empty. */
  predicate NonEmptyIds(index: seq<OrganizationEntity>) {
    forall i :: 0 <= i < |index| ==> index[i].id != ""
  }

  /** The user owns the organization or is one of its members. */
  predicate Visible(o: OrganizationEntity, userId: Id) {
    o.owner == userId || userId in o.members
  }

  /** The organization lies strictly after the continuation id, if one is given. */
  predicate After(token: Option<Id>, o: OrganizationEntity) {
    token.None? || Below(token.value, o.id)
  }

  /**
   * findAllByMember(userId[, continuationId]): the visible organizations after
   * the token, in index order.
   */
  function Matching(index: seq<OrganizationEntity>, userId: Id, token: Option<Id>): (r: seq<OrganizationEntity>)
    ensures |r| <= |index|
  {
    if index == [] then []
    else
      var rest := Matching(index[1..], userId, token);
      if Visible(index[0], userId) && After(token, index[0]) then [index[0]] + rest else rest
  }

  /**
   * The query selects exactly the visible organizations after the token,
   * and keeps them in index order.
   */
  lemma {:induction false} MatchingSelects(index: seq<OrganizationEntity>, userId: Id, token: Option<Id>)
    ensures forall o :: o in Matching(index, userId, token) <==> o in index && Visible(o, userId) && After(token, o)
    ensures SortedById(index) ==> SortedById(Matching(index, userId, token))
  {
    if index != [] {
      var rest := Matching(index[1..], userId, token);
      MatchingSelects(index[1..], userId, token);
      assert forall o :: o in index <==> o == index[0] || o in index[1..];
      if SortedById(index) {
        SortedTail(index);
      }
    }
  }

  /** StringUtils.hasLength: a null or empty continuation id means "from the start". */
  function EffectiveToken(continuationId: Option<Id>): (t: Option<Id>)
    ensures t.Some? <==> continuationId.Some? && continuationId.value != ""
    ensures t.Some? ==> t == continuationId
  {
    if continuationId.Some? && continuationId.value != "" then continuationId else None
  }

  /** A missing or zero limit falls back to DEFAULT_ORG_LIMIT. */
  function DefaultedLimit(limit: Option<int>): (l: int)
    ensures limit.None? || limit == Some(0) ==> l == DefaultOrgLimit
    ensures limit.Some? && limit.value != 0 ==> l == limit.value
    ensures l != 0
  {
    if limit.None? || limit.value == 0 then DefaultOrgLimit else limit.value
  }

  /**
   * limitOrganizations: the whole list when it fits, otherwise its first
   * `limit` entries; a negative limit makes Stream.limit throw.
   */
  function LimitOrganizations(limit: int, entities: seq<OrganizationEntity>): (r: Result<seq<OrganizationEntity>>)
    ensures r.Err? <==> limit < 0
    ensures r.Err? ==> r.error == InvalidLimit
    ensures r.Ok? ==> |r.value| == Min(limit, |entities|) && r.value == entities[..|r.value|]
  {
    if limit >= |entities| then Ok(entities)
    else if limit < 0 then Err(InvalidLimit)
    else Ok(entities[..limit])
  }

  /** getContinuationId: none when the page is everything, otherwise the id of the page's last entry. */
  function ContinuationId(entities: seq<OrganizationEntity>, page: seq<OrganizationEntity>): (r: Option<Id>)
    requires |page| <= |entities| && (|page| < |entities| ==> |page| > 0)
    ensures r.None? <==> |page| == |entities|
    ensures r.Some? ==> r.value == page[|page| - 1].id
  {
    if |page| == |entities| then None else Some(page[|page| - 1].id)
  }

  function ConvertAll(entities: seq<OrganizationEntity>): (r: seq<Organization>)
    ensures |r| == |entities|
    ensures forall i :: 0 <= i < |entities| ==> r[i] == OrganizationConverter.ToDomain(entities[i])
  {
    seq(|entities|, i requires 0 <= i < |entities| => OrganizationConverter.ToDomain(entities[i]))
  }

  /**
   * findAllOrganizations: the first min(limit, n) of the n matching
   * organizations, in index order; the continuation token is absent exactly
   * when nothing is left, and otherwise is the id of the page's last entry.
   */
  function FindAllOrganizations(index: seq<OrganizationEntity>, userId: Id, limit: Option<int>, continuationId: Option<Id>)
    : (r: Result<OrganizationSearchResult>)
    ensures r.Err? <==> limit.Some? && limit.value < 0
    ensures r.Err? ==> r.error == InvalidLimit
    ensures r.Ok? ==>
      var all := Matching(index, userId, EffectiveToken(continuationId));
      var l := DefaultedLimit(limit);
      && |r.value.result| == Min(l, |all|)
      && (forall i :: 0 <= i < |r.value.result| ==> r.value.result[i] == OrganizationConverter.ToDomain(all[i]))
      && (r.value.continuationToken.None? <==> |all| <= l)
      && (r.value.continuationToken.Some? ==> r.value.continuationToken.value == all[l - 1].id)
    ensures r.Ok? && (limit.None? || limit == Some(0)) ==>
      |r.value.result| == Min(DefaultOrgLimit, |Matching(index, userId, EffectiveToken(continuationId))|)
  {
    var l := DefaultedLimit(limit);
    var entities := Matching(index, userId, EffectiveToken(continuationId));
    var page := LimitOrganizations(l, entities);
    if page.Err? then Err(page.error)
    else Ok(OrganizationSearchResult(ContinuationId(entities, page.value), ConvertAll(page.value)))
  }

  /** Two tokens that cut the visible part of `xs` the same way select the same organizations. */
  lemma {:induction false} MatchingSameCut(xs: seq<OrganizationEntity>, userId: Id, t1: Option<Id>, t2: Option<Id>)
    requires forall o :: o in xs && Visible(o, userId) ==> (After(t1, o) <==> After(t2, o))
    ensures Matching(xs, userId, t1) == Matching(xs, userId, t2)
  {
    if xs != [] {
      assert forall o :: o in xs[1..] ==> o in xs;
      MatchingSameCut(xs[1..], userId, t1, t2);
    }
  }

  lemma SortedTail(index: seq<OrganizationEntity>)
    requires SortedById(index) && |index| > 0
    ensures SortedById(index[1..])
    ensures forall o :: o in index[1..] ==> Below(index[0].id, o.id)
  {
    forall o | o in index[1..] ensures Below(index[0].id, o.id) {
      var j :| 0 <= j < |index[1..]| && index[1..][j] == o;
      assert index[j + 1] == o;
    }
  }

  /** Resuming right after the first organization of the index: the rest of the index, cut as before. */
  lemma ResumeAtHead(index: seq<OrganizationEntity>, userId: Id, token: Option<Id>)
    requires SortedById(index) && |index| > 0
    requires After(token, index[0])
    ensures Matching(index, userId, Some(index[0].id)) == Matching(index[1..], userId, token)
  {
    SortedTail(index);
    BelowIrreflexive(index[0].id);
    forall o | o in index[1..] && Visible(o, userId) ensures After(token, o) <==> After(Some(index[0].id), o) {
      if token.Some? {
        BelowTransitive(token.value, index[0].id, o.id);
      }
    }
    MatchingSameCut(index[1..], userId, token, Some(index[0].id));
  }

  /** Resuming after a later organization never selects the first one. */
  lemma HeadDropped(index: seq<OrganizationEntity>, userId: Id, o: OrganizationEntity)
    requires SortedById(index) && |index| > 0 && o in index[1..]
    ensures Matching(index, userId, Some(o.id)) == Matching(index[1..], userId, Some(o.id))
  {
    SortedTail(index);
    BelowAsymmetric(index[0].id, o.id);
  }

  /**
   * Resuming after the i-th matching organization yields exactly the
   * matching organizations that follow it.
   */
  lemma {:induction false} Resume(index: seq<OrganizationEntity>, userId: Id, token: Option<Id>, i: int)
    requires SortedById(index)
    requires 0 <= i < |Matching(index, userId, token)|
    ensures Matching(index, userId, Some(Matching(index, userId, token)[i].id)) == Matching(index, userId, token)[i + 1..]
  {
    var all := Matching(index, userId, token);
    var rest := Matching(index[1..], userId, token);
    SortedTail(index);
    MatchingSelects(index[1..], userId, token);
    if Visible(index[0], userId) && After(token, index[0]) {
      assert all == [index[0]] + rest;
      if i == 0 {
        ResumeAtHead(index, userId, token);
      } else {
        Resume(index[1..], userId, token, i - 1);
        assert all[i] == rest[i - 1] && all[i + 1..] == rest[i..];
        HeadDropped(index, userId, all[i]);
      }
    } else {
      assert all == rest;
      Resume(index[1..], userId, token, i);
      HeadDropped(index, userId, all[i]);
    }
  }

  /** The last request: everything left fits into one page, which carries no token. */
  lemma PageLast(index: seq<OrganizationEntity>, userId: Id, limit: int, token: Option<Id>)
    requires limit > 0
    requires |Matching(index, userId, EffectiveToken(token))| <= limit
    ensures var r := FindAllOrganizations(index, userId, Some(limit), token);
      && r.Ok? && r.value.continuationToken.None?
      && r.value.result == ConvertAll(Matching(index, userId, EffectiveToken(token)))
  {
  }

  /** A full page: it carries a token, and resuming from it reads the organizations after the page. */
  lemma PageFull(index: seq<OrganizationEntity>, userId: Id, limit: int, token: Option<Id>)
    requires SortedById(index) && NonEmptyIds(index) && limit > 0
    requires |Matching(index, userId, EffectiveToken(token))| > limit
    ensures var r := FindAllOrganizations(index, userId, Some(limit), token);
      var all := Matching(index, userId, EffectiveToken(token));
      && r.Ok? && r.value.continuationToken.Some?
      && r.value.result == ConvertAll(all[..limit])
      && Matching(index, userId, EffectiveToken(r.value.continuationToken)) == all[limit..]
  {
    var all := Matching(index, userId, EffectiveToken(token));
    Resume(index, userId, EffectiveToken(token), limit - 1);
    MatchingSelects(index, userId, EffectiveToken(token));
    assert all[limit - 1] in index;
  }

  /**
   * The responses a client collects by starting at `token` and following
   * each continuation token until none is returned.
   */
  function Crawl(index: seq<OrganizationEntity>, userId: Id, limit: int, token: Option<Id>): (pages: seq<OrganizationSearchResult>)
    requires SortedById(index) && NonEmptyIds(index) && limit > 0
    ensures PagedAs(pages, |Matching(index, userId, EffectiveToken(token))|, limit)
    decreases |Matching(index, userId, EffectiveToken(token))|
  {
    CrawlStep(index, userId, limit, token);
    var r := FindAllOrganizations(index, userId, Some(limit), token).value;
    if r.continuationToken.None? then
      [r]
    else
      var rest := Crawl(index, userId, limit, r.continuationToken);
      PagedCons(r, rest, |Matching(index, userId, EffectiveToken(token))|, limit);
      [r] + rest
  }

  /** One request of a crawl: either the last page, or a full page whose token leaves `limit` fewer organizations. */
  lemma CrawlStep(index: seq<OrganizationEntity>, userId: Id, limit: int, token: Option<Id>)
    requires SortedById(index) && NonEmptyIds(index) && limit > 0
    ensures var r := FindAllOrganizations(index, userId, Some(limit), token);
      var n := |Matching(index, userId, EffectiveToken(token))|;
      && r.Ok?
      && (r.value.continuationToken.None? ==> PagedAs([r.value], n, limit))
      && (r.value.continuationToken.Some? ==>
            && n > limit && |r.value.result| == limit
            && |Matching(index, userId, EffectiveToken(r.value.continuationToken))| == n - limit)
  {
    if |Matching(index, userId, EffectiveToken(token))| <= limit {
      PageLast(index, userId, limit, token);
    } else {
      PageFull(index, userId, limit, token);
    }
  }

  /** A full page with a token, followed by the pages of the rest, is paged as the whole. */
  lemma PagedCons(r: OrganizationSearchResult, rest: seq<OrganizationSearchResult>, n: nat, limit: int)
    requires limit > 0 && n > limit
    requires r.continuationToken.Some? && |r.result| == limit
    requires PagedAs(rest, n - limit, limit)
    ensures PagedAs([r] + rest, n, limit)
  {
    assert ([r] + rest)[1..] == rest;
  }

  function Flatten(pages: seq<OrganizationSearchResult>): seq<Organization> {
    if pages == [] then [] else pages[0].result + Flatten(pages[1..])
  }

  lemma ConvertAllSplit(entities: seq<OrganizationEntity>, k: int)
    requires 0 <= k <= |entities|
    ensures ConvertAll(entities) == ConvertAll(entities[..k]) + ConvertAll(entities[k..])
  {
  }

  /** The pages of a crawl, concatenated, are all matching organizations in index order. */
  lemma {:induction false} CrawlFlattens(index: seq<OrganizationEntity>, userId: Id, limit: int, token: Option<Id>)
    requires SortedById(index) && NonEmptyIds(index) && limit > 0
    ensures Flatten(Crawl(index, userId, limit, token)) == ConvertAll(Matching(index, userId, EffectiveToken(token)))
    decreases |Matching(index, userId, EffectiveToken(token))|
  {
    var all := Matching(index, userId, EffectiveToken(token));
    var pages := Crawl(index, userId, limit, token);
    var r := FindAllOrganizations(index, userId, Some(limit), token).value;
    if |all| <= limit {
      PageLast(index, userId, limit, token);
      assert pages == [r];
      assert Flatten(pages) == r.result + Flatten([]);
    } else {
      PageFull(index, userId, limit, token);
      var rest := Crawl(index, userId, limit, r.continuationToken);
      CrawlFlattens(index, userId, limit, r.continuationToken);
      assert pages[1..] == rest;
      assert Flatten(pages) == r.result + Flatten(rest);
      ConvertAllSplit(all, limit);
    }
  }

  /** ceil(n / limit) for n > 0, and 1 for n = 0: the number of responses a crawl returns. */
  function PageCount(n: nat, limit: int): (c: nat)
    requires limit > 0
    ensures c >= 1
    decreases n
  {
    if n <= limit then 1 else 1 + PageCount(n - limit, limit)
  }

  lemma {:induction false} PageCountBounds(n: nat, limit: int, c: nat)
    requires limit > 0 && c == PageCount(n, limit)
    ensures n > 0 ==> (c - 1) * limit < n <= c * limit
    decreases n
  {
    if n > limit {
      PageCountBounds(n - limit, limit, c - 1);
      assert c * limit == (c - 1) * limit + limit;
    }
  }

  /** The size of the last response: what is left once the full pages are taken. */
  function LastPageSize(n: nat, limit: int): nat
    requires limit > 0
    decreases n
  {
    if n <= limit then n else LastPageSize(n - limit, limit)
  }

  lemma {:induction false} LastPageSizeIsRemainder(n: nat, limit: int, c: nat)
    requires limit > 0 && c == PageCount(n, limit)
    ensures LastPageSize(n, limit) == n - (c - 1) * limit
    decreases n
  {
    if n > limit {
      LastPageSizeIsRemainder(n - limit, limit, c - 1);
      assert (c - 2) * limit + limit == (c - 1) * limit;
    }
  }

  /**
   * The shape of the responses for n matching organizations: while more than
   * `limit` remain, a full page with a token; then one page with what is
   * left and no token.
   */
  ghost predicate PagedAs(pages: seq<OrganizationSearchResult>, n: nat, limit: int)
    requires limit > 0
    decreases n
  {
    if n <= limit then |pages| == 1 && pages[0].continuationToken.None? && |pages[0].result| == n
    else
      && |pages| > 1 && pages[0].continuationToken.Some? && |pages[0].result| == limit
      && PagedAs(pages[1..], n - limit, limit)
  }

  /**
   * Responses of that shape: PageCount of them, all but the last full and
   * with a token, the last without one and holding LastPageSize entries.
   */
  lemma {:induction false} PagedShape(pages: seq<OrganizationSearchResult>, n: nat, limit: int)
    requires limit > 0 && PagedAs(pages, n, limit)
    ensures |pages| == PageCount(n, limit)
    ensures pages[|pages| - 1].continuationToken.None?
    ensures |pages[|pages| - 1].result| == LastPageSize(n, limit)
    ensures forall j :: 0 <= j < |pages| - 1 ==> |pages[j].result| == limit && pages[j].continuationToken.Some?
    decreases n
  {
    if n > limit {
      var rest := pages[1..];
      PagedShape(rest, n - limit, limit);
      assert pages[|pages| - 1] == rest[|rest| - 1];
      forall j | 0 <= j < |pages| - 1 ensures |pages[j].result| == limit && pages[j].continuationToken.Some? {
        if j > 0 {
          assert pages[j] == rest[j - 1];
        }
      }
    }
  }

  /**
   * Following continuation tokens drains the user's organizations: the
   * pages, concatenated, are all matching organizations in index order; for
   * n > 0 there are ceil(n / limit) pages, and one empty page when n = 0;
   * every page but the last is full and carries a token; the last carries
   * none.
   */
  lemma CrawlDrains(index: seq<OrganizationEntity>, userId: Id, limit: int, token: Option<Id>)
    requires SortedById(index) && NonEmptyIds(index) && limit > 0
    ensures var all := Matching(index, userId, EffectiveToken(token));
      var pages := Crawl(index, userId, limit, token);
      && Flatten(pages) == ConvertAll(all)
      && (|all| == 0 ==> |pages| == 1)
      && (|all| > 0 ==> (|pages| - 1) * limit < |all| <= |pages| * limit)
      && pages[|pages| - 1].continuationToken.None?
      && (forall j :: 0 <= j < |pages| - 1 ==> |pages[j].result| == limit && pages[j].continuationToken.Some?)
      && |pages[|pages| - 1].result| == |all| - (|pages| - 1) * limit
  {
    CrawlFlattens(index, userId, limit, token);
    var all := Matching(index, userId, EffectiveToken(token));
    var pages := Crawl(index, userId, limit, token);
    PagedShape(pages, |all|, limit);
    PageCountBounds(|all|, limit, |pages|);
    LastPageSizeIsRemainder(|all|, limit, |pages|);
  }

  /** Ten matching organizations read four at a time come back as pages of 4, 4 and 2, the last without a token. */
  lemma TenByFour(index: seq<OrganizationEntity>, userId: Id)
    requires SortedById(index) && NonEmptyIds(index)
    requires |Matching(index, userId, None)| == 10
    ensures var pages := Crawl(index, userId, 4, None);
      && |pages| == 3
      && |pages[0].result| == 4 && |pages[1].result| == 4 && |pages[2].result| == 2
      && pages[0].continuationToken.Some? && pages[1].continuationToken.Some? && pages[2].continuationToken.None?
  {
    CrawlDrains(index, userId, 4, None);
  }

  // ==== lookups ====

  /** findById: the stored organization, or NotFound. */
  function FindById(orgs: map<Id, OrganizationEntity>, orgId: Id): (r: Result<OrganizationEntity>)
    ensures r.Ok? <==> orgId in orgs
    ensures r.Ok? ==> r.value == orgs[orgId]
    ensures r.Err? ==> r.error == NotFound
  {
    if orgId in orgs then Ok(orgs[orgId]) else Err(NotFound)
  }

  /** get: the organization's API form, if it is stored. */
  function Get(orgs: map<Id, OrganizationEntity>, orgId: Id): (r: Option<Organization>)
    ensures r.Some? <==> orgId in orgs
    ensures r.Some? ==> r.value == OrganizationConverter.ToDomain(orgs[orgId])
  {
    if orgId in orgs then Some(OrganizationConverter.ToDomain(orgs[orgId])) else None
  }

  /**
   * create: stores the converted request under a fresh id, owned by the
   * creator, and returns its API form. Creating the party in the party
   * management service is not part of this model.
   */
  method Create(s: Store, request: NewOrganization, ownerId: Id, freshId: Id, now: Time) returns (o: Organization)
    requires s.Valid() && freshId !in s.orgs
    modifies s
    ensures s.Valid()
    ensures s.orgs == old(s.orgs)[freshId := OrganizationConverter.ToEntity(request, ownerId, freshId, now)]
    ensures o == OrganizationConverter.ToDomain(s.orgs[freshId])
    ensures o.id == freshId && o.name == request.name && o.owner == ownerId && o.party == ownerId
    ensures s.members == old(s.members) && s.memberRoles == old(s.memberRoles)
    ensures s.invitations == old(s.invitations) && s.contexts == old(s.contexts)
  {
    var entity := OrganizationConverter.ToEntity(request, ownerId, freshId, now);
    s.orgs := s.orgs[freshId := entity];
    o := OrganizationConverter.ToDomain(entity);
  }

  /** modify: renames a stored organization (NotFound otherwise) and returns its API form. */
  method Modify(s: Store, orgId: Id, name: string) returns (r: Result<Organization>)
    requires s.Valid()
    modifies s
    ensures s.Valid()
    ensures r.Err? <==> orgId !in old(s.orgs)
    ensures r.Err? ==> r.error == NotFound && unchanged(s)
    ensures r.Ok? ==> s.orgs == old(s.orgs)[orgId := old(s.orgs)[orgId].(name := name)]
    ensures r.Ok? ==> r.value == OrganizationConverter.ToDomain(s.orgs[orgId]) && r.value.name == name
    ensures s.members == old(s.members) && s.memberRoles == old(s.memberRoles)
    ensures s.invitations == old(s.invitations) && s.contexts == old(s.contexts)
  {
    var org := FindById(s.orgs, orgId);
    if org.Err? {
      return Err(org.error);
    }
    var renamed := org.value.(name := name);
    s.orgs := s.orgs[orgId := renamed];
    r := Ok(OrganizationConverter.ToDomain(renamed));
  }

  /** getOrgIdByInvitationToken: the organization of a redeemable invitation. */
  function GetOrgIdByInvitationToken(orgs: map<Id, OrganizationEntity>, invitations: map<Id, InvitationEntity>, token: Id, now: Time)
    : (r: Result<Id>)
    requires InvitationsValid(invitations)
    requires forall k :: k in orgs ==> orgs[k].id == k
    ensures InvitationService.FindByToken(invitations, token, now).Err? ==> r == Err(InvitationService.FindByToken(invitations, token, now).error)
    ensures r.Ok? <==> (InvitationService.FindByToken(invitations, token, now).Ok?
                        && InvitationService.FindByToken(invitations, token, now).value.organizationId in orgs)
    ensures r.Ok? ==> r.value == InvitationService.FindByToken(invitations, token, now).value.organizationId
    ensures var found := InvitationService.FindByToken(invitations, token, now);
      found.Ok? && found.value.organizationId !in orgs ==> r == Err(NotFound)
  {
    var found := InvitationService.FindByToken(invitations, token, now);
    if found.Err? then Err(found.error)
    else
      var org := FindById(orgs, found.value.organizationId);
      if org.Err? then Err(org.error) else Ok(org.value.id)
  }

  // ==== a member's roles in one organization ====

  /** isActiveOrgMemberRole. */
  predicate IsActiveOrgMemberRole(orgId: Id, role: MemberRoleEntity) {
    role.organizationId == orgId && role.active
  }

  predicate LinksIn(links: seq<Id>, table: map<Id, MemberRoleEntity>) {
    forall i :: 0 <= i < |links| ==> links[i] in table
  }

  /**
   * getMemberRolesInOrg: the member's roles, in link order, that belong to
   * `orgId` and are active.
   */
  function RolesInOrg(links: seq<Id>, table: map<Id, MemberRoleEntity>, orgId: Id): (r: seq<MemberRoleEntity>)
    requires LinksIn(links, table)
    ensures |r| <= |links|
    ensures forall j :: 0 <= j < |r| ==> IsActiveOrgMemberRole(orgId, r[j])
    ensures forall j :: 0 <= j < |r| ==> exists i :: 0 <= i < |links| && r[j] == table[links[i]]
    ensures forall i :: 0 <= i < |links| && IsActiveOrgMemberRole(orgId, table[links[i]]) ==> table[links[i]] in r
  {
    if links == [] then []
    else
      var n := |links| - 1;
      var rest := RolesInOrg(links[..n], table, orgId);
      assert forall j :: 0 <= j < |rest| ==> exists i :: 0 <= i < |links| && rest[j] == table[links[i]] by {
        forall j | 0 <= j < |rest| ensures exists i :: 0 <= i < |links| && rest[j] == table[links[i]] {
          var i :| 0 <= i < n && rest[j] == table[links[..n][i]];
          assert links[..n][i] == links[i];
        }
      }
      assert forall i :: 0 <= i < n ==> links[..n][i] == links[i];
      rest + (if IsActiveOrgMemberRole(orgId, table[links[n]]) then [table[links[n]]] else [])
  }

  /** The converted roles in an organization are exactly the active roles of it among the links. */
  lemma RolesInOrgView(links: seq<Id>, table: map<Id, MemberRoleEntity>, orgId: Id)
    requires LinksIn(links, table)
    ensures forall x :: x in MemberConverter.ConvertRoles(RolesInOrg(links, table, orgId)) <==>
      exists i :: 0 <= i < |links| && IsActiveOrgMemberRole(orgId, table[links[i]])
        && x == MemberRoleConverter.ToDomain(table[links[i]])
  {
    var roles := RolesInOrg(links, table, orgId);
    var converted := MemberConverter.ConvertRoles(roles);
    forall x | x in converted
      ensures (exists i :: 0 <= i < |links| && IsActiveOrgMemberRole(orgId, table[links[i]])
                            && x == MemberRoleConverter.ToDomain(table[links[i]])) {
      var j :| 0 <= j < |converted| && converted[j] == x;
      var i :| 0 <= i < |links| && roles[j] == table[links[i]];
    }
    forall i | 0 <= i < |links| && IsActiveOrgMemberRole(orgId, table[links[i]])
      ensures MemberRoleConverter.ToDomain(table[links[i]]) in converted {
      var j :| 0 <= j < |roles| && roles[j] == table[links[i]];
      assert converted[j] == MemberRoleConverter.ToDomain(roles[j]);
    }
  }

  /** getMember's conversion with getMemberRolesInOrg: the member with its active roles of `orgId`. */
  function MemberInOrg(member: MemberEntity, table: map<Id, MemberRoleEntity>, orgId: Id): (m: Member)
    requires LinksIn(member.roles, table)
    ensures m.id == member.id && m.userEmail == member.email
    ensures forall x :: x in m.roles <==>
      exists i :: 0 <= i < |member.roles| && IsActiveOrgMemberRole(orgId, table[member.roles[i]])
        && x == MemberRoleConverter.ToDomain(table[member.roles[i]])
  {
    RolesInOrgView(member.roles, table, orgId);
    MemberConverter.ToDomainWithRoles(member, RolesInOrg(member.roles, table, orgId))
  }

  /**
   * getOrgMember: NotFound unless the organization exists and lists the user
   * as a member; otherwise the member with exactly those of its roles that
   * belong to `orgId` and are active.
   */
  function GetOrgMember(orgs: map<Id, OrganizationEntity>, members: map<Id, MemberEntity>,
                        table: map<Id, MemberRoleEntity>, userId: Id, orgId: Id): (r: Result<Member>)
    requires OrgsValid(orgs, members) && MembersValid(members, table)
    ensures r.Err? <==> orgId !in orgs || userId !in orgs[orgId].members
    ensures r.Err? ==> r.error == NotFound
    ensures r.Ok? ==> userId in members && r.value.id == userId && r.value.userEmail == members[userId].email
    ensures r.Ok? ==> userId in members && forall x :: x in r.value.roles <==>
      exists i :: 0 <= i < |members[userId].roles|
        && IsActiveOrgMemberRole(orgId, table[members[userId].roles[i]])
        && x == MemberRoleConverter.ToDomain(table[members[userId].roles[i]])
  {
    var org := FindById(orgs, orgId);
    if org.Err? then Err(org.error)
    else if userId !in org.value.members then Err(NotFound)
    else Ok(MemberInOrg(members[userId], table, orgId))
  }

  lemma RolesInOrgAppend(links: seq<Id>, x: Id, table: map<Id, MemberRoleEntity>, orgId: Id)
    requires LinksIn(links, table) && x in table
    ensures LinksIn(links + [x], table)
    ensures RolesInOrg(links + [x], table, orgId)
         == RolesInOrg(links, table, orgId) + (if IsActiveOrgMemberRole(orgId, table[x]) then [table[x]] else [])
  {
    assert (links + [x])[..|links|] == links;
  }

  /** The roles in an organization depend only on the table entries the links point to. */
  lemma {:induction false} RolesInOrgFrame(links: seq<Id>, t1: map<Id, MemberRoleEntity>, t2: map<Id, MemberRoleEntity>, orgId: Id)
    requires LinksIn(links, t1) && LinksIn(links, t2)
    requires forall i :: 0 <= i < |links| ==> t1[links[i]] == t2[links[i]]
    ensures RolesInOrg(links, t1, orgId) == RolesInOrg(links, t2, orgId)
  {
    if links != [] {
      var n := |links| - 1;
      assert forall i :: 0 <= i < n ==> links[..n][i] == links[i];
      RolesInOrgFrame(links[..n], t1, t2, orgId);
    }
  }

  // ==== listMembers ====

  /**
   * listMembers: NotFound for an unknown organization; otherwise the rows of
   * the member query grouped into members, one per distinct (id, e-mail)
   * pair, with one role per row. The rows are a parameter, standing for
   * getOrgMemberList(orgId).
   */
  function ListMembers(orgs: map<Id, OrganizationEntity>, orgId: Id, rows: seq<MemberWithRoleDto>): (r: Result<seq<Member>>)
    ensures r.Err? <==> orgId !in orgs
    ensures r.Err? ==> r.error == NotFound
    ensures r.Ok? ==> MemberConverter.TotalRoles(r.value) == |rows|
    ensures r.Ok? ==> forall row :: row in rows ==>
      exists i :: 0 <= i < |r.value| && r.value[i].id == row.id && r.value[i].userEmail == row.email
    ensures r.Ok? ==> forall i, j :: 0 <= i < j < |r.value| ==>
      MemberConverter.MemberKey(r.value[i].id, r.value[i].userEmail) != MemberConverter.MemberKey(r.value[j].id, r.value[j].userEmail)
    ensures r.Ok? ==> forall i :: 0 <= i < |r.value| ==>
      MemberConverter.MemberKey(r.value[i].id, r.value[i].userEmail) in MemberConverter.KeySet(rows)
    ensures r.Ok? ==> forall i :: 0 <= i < |r.value| ==>
      var group := MemberConverter.Select(rows, MemberConverter.MemberKey(r.value[i].id, r.value[i].userEmail));
      |r.value[i].roles| == |group| && forall j :: 0 <= j < |group| ==> r.value[i].roles[j] == MemberRoleConverter.FromRow(group[j])
  {
    if orgId !in orgs then Err(NotFound) else Ok(MemberConverter.ToDomainRows(rows))
  }

  // ==== assignMemberRole ====

  /**
   * Linking a new active role of `orgId` to a member extends the member's
   * roles in that organization by exactly that role, at the end.
   */
  lemma AssignAppendsRole(links: seq<Id>, table: map<Id, MemberRoleEntity>, orgId: Id, e: MemberRoleEntity)
    requires LinksIn(links, table) && e.id !in table && IsActiveOrgMemberRole(orgId, e)
    ensures LinksIn(links + [e.id], table[e.id := e])
    ensures RolesInOrg(links + [e.id], table[e.id := e], orgId) == RolesInOrg(links, table, orgId) + [e]
  {
    var t := table[e.id := e];
    RolesInOrgAppend(links, e.id, t, orgId);
    RolesInOrgFrame(links, table, t, orgId);
  }

  /** Linking a fresh role to a stored member keeps the store consistent. */
  lemma AssignKeepsConsistent(orgs: map<Id, OrganizationEntity>, members: map<Id, MemberEntity>,
                              table: map<Id, MemberRoleEntity>, invitations: map<Id, InvitationEntity>,
                              contexts: map<Id, Id>, userId: Id, e: MemberRoleEntity)
    requires Consistent(orgs, members, table, invitations, contexts)
    requires userId in members && e.id !in table
    ensures var m := members[userId];
      Consistent(orgs, members[userId := m.(roles := m.roles + [e.id])], table[e.id := e], invitations, contexts)
  {
    var m := members[userId];
    var links := m.roles + [e.id];
    assert NoDup(links) by {
      forall i, j | 0 <= i < j < |links| ensures links[i] != links[j] {
        if j == |m.roles| {
          assert links[i] == m.roles[i] && m.roles[i] in table;
        }
      }
    }
  }

  lemma ConvertRolesAppend(roles: seq<MemberRoleEntity>, e: MemberRoleEntity)
    ensures MemberConverter.ConvertRoles(roles + [e]) == MemberConverter.ConvertRoles(roles) + [MemberRoleConverter.ToDomain(e)]
  {
  }

  /** The member table with role `id` linked, last, to member `userId`. */
  function WithRole(members: map<Id, MemberEntity>, userId: Id, id: Id): (r: map<Id, MemberEntity>)
    requires userId in members
    ensures r.Keys == members.Keys
    ensures forall k :: k in members && k != userId ==> r[k] == members[k]
    ensures r[userId].roles == members[userId].roles + [id]
    ensures r[userId].id == members[userId].id && r[userId].email == members[userId].email
  {
    members[userId := members[userId].(roles := members[userId].roles + [id])]
  }

  /** After the assignment the store is consistent and the member's roles in `orgId` are the previous ones plus the new role. */
  lemma AssignedRoleListed(orgs: map<Id, OrganizationEntity>, members: map<Id, MemberEntity>,
                           table: map<Id, MemberRoleEntity>, invitations: map<Id, InvitationEntity>,
                           contexts: map<Id, Id>, orgId: Id, userId: Id, e: MemberRoleEntity,
                           members': map<Id, MemberEntity>, table': map<Id, MemberRoleEntity>)
    requires Consistent(orgs, members, table, invitations, contexts)
    requires orgId in orgs && userId in orgs[orgId].members
    requires e.id !in table && IsActiveOrgMemberRole(orgId, e)
    requires members' == WithRole(members, userId, e.id) && table' == table[e.id := e]
    ensures Consistent(orgs, members', table', invitations, contexts)
    ensures GetOrgMember(orgs, members', table', userId, orgId).Ok?
    ensures GetOrgMember(orgs, members', table', userId, orgId).value.roles
         == GetOrgMember(orgs, members, table, userId, orgId).value.roles + [MemberRoleConverter.ToDomain(e)]
  {
    var m := members[userId];
    AssignKeepsConsistent(orgs, members, table, invitations, contexts, userId, e);
    AssignAppendsRole(m.roles, table, orgId, e);
    var rolesBefore := RolesInOrg(m.roles, table, orgId);
    ConvertRolesAppend(rolesBefore, e);
    assert GetOrgMember(orgs, members, table, userId, orgId).value.roles == MemberConverter.ConvertRoles(rolesBefore);
    assert GetOrgMember(orgs, members', table', userId, orgId).value.roles == MemberConverter.ConvertRoles(rolesBefore + [e]);
  }

  /**
   * assignMemberRole: NotFound unless the user is a member of the
   * organization; otherwise links one new active role of `orgId`, built from
   * the request, to the member, without checking for an equal role.
   */
  method AssignMemberRole(s: Store, orgId: Id, userId: Id, role: MemberRole, freshId: Id) returns (r: Result<MemberRole>)
    requires s.Valid() && freshId != "" && freshId !in s.memberRoles
    modifies s
    ensures s.Valid()
    ensures r.Err? <==> !(orgId in old(s.orgs) && userId in old(s.orgs)[orgId].members)
    ensures r.Err? ==> r.error == NotFound && unchanged(s)
    ensures r.Ok? ==>
      var e := MemberRoleConverter.ToEntity(role, orgId, freshId);
      && r.value == MemberRoleConverter.ToDomain(e)
      && s.memberRoles == old(s.memberRoles)[freshId := e]
      && s.members == WithRole(old(s.members), userId, freshId)
    ensures s.orgs == old(s.orgs) && s.invitations == old(s.invitations) && s.contexts == old(s.contexts)
    ensures r.Ok? ==>
      && GetOrgMember(s.orgs, s.members, s.memberRoles, userId, orgId).Ok?
      && GetOrgMember(s.orgs, s.members, s.memberRoles, userId, orgId).value.roles
         == GetOrgMember(old(s.orgs), old(s.members), old(s.memberRoles), userId, orgId).value.roles + [r.value]
  {
    var org := FindById(s.orgs, orgId);
    if org.Err? {
      return Err(org.error);
    }
    if userId !in org.value.members {
      return Err(NotFound);
    }
    var entity := MemberRoleConverter.ToEntity(role, orgId, freshId);
    var members', table' := WithRole(s.members, userId, freshId), s.memberRoles[freshId := entity];
    AssignedRoleListed(s.orgs, s.members, s.memberRoles, s.invitations, s.contexts, orgId, userId, entity, members', table');
    s.members, s.memberRoles := members', table';
    r := Ok(MemberRoleConverter.ToDomain(entity));
  }

  // ==== expelOrgMember ====

  /**
   * deactivateOrgMemberRoles, as a whole: the member's roles of `orgId` become
   * inactive; every other entry of the table is unchanged.
   */
  function Deactivated(table: map<Id, MemberRoleEntity>, links: seq<Id>, orgId: Id): (t: map<Id, MemberRoleEntity>)
    ensures t.Keys == table.Keys
    ensures forall k :: k in table && k in links && table[k].organizationId == orgId ==> t[k] == table[k].(active := false)
    ensures forall k :: k in table && !(k in links && table[k].organizationId == orgId) ==> t[k] == table[k]
  {
    map k | k in table :: if k in links && table[k].organizationId == orgId then table[k].(active := false) else table[k]
  }

  /**
   * The loop of deactivateOrgMemberRoles: visits the member's roles in link
   * order and switches off each one that belongs to `orgId`.
   */
  method DeactivateOrgMemberRoles(table: map<Id, MemberRoleEntity>, links: seq<Id>, orgId: Id)
    returns (t: map<Id, MemberRoleEntity>)
    requires LinksIn(links, table)
    ensures t == Deactivated(table, links, orgId)
  {
    t := table;
    var i := 0;
    while i < |links|
      invariant 0 <= i <= |links|
      invariant t.Keys == table.Keys
      invariant forall k :: k in table ==> t[k] == if k in links[..i] && table[k].organizationId == orgId then table[k].(active := false) else table[k]
    {
      var id := links[i];
      if t[id].organizationId == orgId {
        t := t[id := t[id].(active := false)];
      }
      assert links[..i + 1] == links[..i] + [id];
      i := i + 1;
    }
    assert links[..i] == links;
  }

  /** The removeIf on the member's roles: the links to roles of other organizations, in order. */
  function WithoutOrg(links: seq<Id>, table: map<Id, MemberRoleEntity>, orgId: Id): (r: seq<Id>)
    requires LinksIn(links, table)
    ensures forall x :: x in r <==> x in links && table[x].organizationId != orgId
    ensures NoDup(links) ==> NoDup(r)
  {
    if links == [] then []
    else
      var n := |links| - 1;
      var rest := WithoutOrg(links[..n], table, orgId);
      assert forall x :: x in links <==> x in links[..n] || x == links[n] by {
        assert links == links[..n] + [links[n]];
      }
      assert NoDup(links) ==> NoDup(links[..n]) && links[n] !in links[..n];
      if table[links[n]].organizationId != orgId then rest + [links[n]] else rest
  }

  /** Links that all point to roles of other organizations give no roles in `orgId`. */
  lemma {:induction false} NoRolesInOrg(links: seq<Id>, table: map<Id, MemberRoleEntity>, orgId: Id)
    requires LinksIn(links, table)
    requires forall i :: 0 <= i < |links| ==> table[links[i]].organizationId != orgId
    ensures RolesInOrg(links, table, orgId) == []
  {
    if links != [] {
      var n := |links| - 1;
      assert forall i :: 0 <= i < n ==> links[..n][i] == links[i];
      NoRolesInOrg(links[..n], table, orgId);
    }
  }

  /** After an expulsion the member keeps no role, active or not, in the organization. */
  lemma {:induction false} ExpelledHasNoRolesInOrg(links: seq<Id>, table: map<Id, MemberRoleEntity>, orgId: Id)
    requires LinksIn(links, table)
    ensures LinksIn(WithoutOrg(links, table, orgId), Deactivated(table, links, orgId))
    ensures RolesInOrg(WithoutOrg(links, table, orgId), Deactivated(table, links, orgId), orgId) == []
  {
    var kept := WithoutOrg(links, table, orgId);
    var t := Deactivated(table, links, orgId);
    assert forall i :: 0 <= i < |kept| ==> kept[i] in links && t[kept[i]].organizationId != orgId;
    NoRolesInOrg(kept, t, orgId);
  }

  /**
   * expelOrgMember: NotFound unless the user is a member of the organization;
   * otherwise the member's roles of `orgId` are switched off and unlinked, the
   * roles of other organizations stay linked and unchanged, and the user
   * leaves the organization's members.
   */
  method ExpelOrgMember(s: Store, orgId: Id, userId: Id) returns (r: Outcome)
    requires s.Valid()
    modifies s
    ensures s.Valid()
    ensures r.Fail? <==> !(orgId in old(s.orgs) && userId in old(s.orgs)[orgId].members)
    ensures r.Fail? ==> r.error == NotFound && unchanged(s)
    ensures r.Pass? ==>
      var m := old(s.members)[userId];
      var org := old(s.orgs)[orgId];
      && s.memberRoles == Deactivated(old(s.memberRoles), m.roles, orgId)
      && s.members == old(s.members)[userId := m.(roles := WithoutOrg(m.roles, old(s.memberRoles), orgId))]
      && s.orgs == old(s.orgs)[orgId := org.(members := org.members - {userId})]
    ensures s.invitations == old(s.invitations) && s.contexts == old(s.contexts)
    ensures r.Pass? ==> GetOrgMember(s.orgs, s.members, s.memberRoles, userId, orgId) == Err(NotFound)
    ensures r.Pass? ==> RolesInOrg(s.members[userId].roles, s.memberRoles, orgId) == []
  {
    var org := FindById(s.orgs, orgId);
    if org.Err? {
      return Fail(org.error);
    }
    if userId !in org.value.members {
      return Fail(NotFound);
    }
    var member := s.members[userId];
    ExpelledHasNoRolesInOrg(member.roles, s.memberRoles, orgId);
    var kept := WithoutOrg(member.roles, s.memberRoles, orgId);
    var deactivated := DeactivateOrgMemberRoles(s.memberRoles, member.roles, orgId);
    s.memberRoles := deactivated;
    s.members := s.members[userId := member.(roles := kept)];
    s.orgs := s.orgs[orgId := org.value.(members := org.value.members - {userId})];
    r := Pass;
  }

  // ==== removeMemberRole ====

  /** Set.remove on the member's links: every link except `id`, in order. */
  function Without(links: seq<Id>, id: Id): (r: seq<Id>)
    ensures forall x :: x in r <==> x in links && x != id
    ensures NoDup(links) ==> NoDup(r)
    ensures |r| <= |links|
  {
    if links == [] then []
    else
      var n := |links| - 1;
      var rest := Without(links[..n], id);
      assert links == links[..n] + [links[n]];
      assert NoDup(links) ==> NoDup(links[..n]) && links[n] !in links[..n];
      if links[n] != id then rest + [links[n]] else rest
  }

  /**
   * Switching off the role `id` and unlinking it from the member lowers the
   * member's active role count in `orgId` by one when `id` was one of them,
   * and leaves it as it was otherwise.
   */
  lemma {:induction false} RemovalCount(links: seq<Id>, table: map<Id, MemberRoleEntity>, id: Id, orgId: Id)
    requires LinksIn(links, table) && NoDup(links) && id in table
    ensures LinksIn(Without(links, id), table[id := table[id].(active := false)])
    ensures |RolesInOrg(Without(links, id), table[id := table[id].(active := false)], orgId)|
         == |RolesInOrg(links, table, orgId)| - (if id in links && IsActiveOrgMemberRole(orgId, table[id]) then 1 else 0)
  {
    var t := table[id := table[id].(active := false)];
    if links != [] {
      var n := |links| - 1;
      var pre, x := links[..n], links[n];
      assert links == pre + [x];
      assert forall i :: 0 <= i < n ==> pre[i] == links[i];
      assert x !in pre;
      RemovalCount(pre, table, id, orgId);
      var w := Without(pre, id);
      assert LinksIn(w, t);
      if x != id {
        assert Without(links, id) == w + [x];
        RolesInOrgAppend(w, x, t, orgId);
        assert t[x] == table[x];
      } else {
        assert Without(links, id) == w;
        assert id !in pre;
      }
      RolesInOrgAppend(pre, x, table, orgId);
    }
  }

  lemma RemoveKeepsConsistent(orgs: map<Id, OrganizationEntity>, members: map<Id, MemberEntity>,
                              table: map<Id, MemberRoleEntity>, invitations: map<Id, InvitationEntity>,
                              contexts: map<Id, Id>, userId: Id, id: Id)
    requires Consistent(orgs, members, table, invitations, contexts)
    requires userId in members && id in table
    ensures var m := members[userId];
      Consistent(orgs, members[userId := m.(roles := Without(m.roles, id))], table[id := table[id].(active := false)],
                 invitations, contexts)
  {
    var m := members[userId];
    var w := Without(m.roles, id);
    assert forall i :: 0 <= i < |w| ==> w[i] in m.roles;
  }

  /**
   * removeMemberRole: NotFound unless the user is a member of the
   * organization; LastRole exactly when the member has one active role in the
   * organization; NotFound for an unknown role id; otherwise the role, looked
   * up by id alone, is switched off and unlinked from the member.
   */
  method RemoveMemberRole(s: Store, orgId: Id, userId: Id, memberRoleId: Id) returns (r: Outcome)
    requires s.Valid()
    modifies s
    ensures s.Valid()
    ensures !(orgId in old(s.orgs) && userId in old(s.orgs)[orgId].members) ==> r == Fail(NotFound)
    ensures orgId in old(s.orgs) && userId in old(s.orgs)[orgId].members ==>
      (r == Fail(LastRole) <==> |RolesInOrg(old(s.members)[userId].roles, old(s.memberRoles), orgId)| == 1)
    ensures r.Pass? <==>
      && orgId in old(s.orgs) && userId in old(s.orgs)[orgId].members
      && |RolesInOrg(old(s.members)[userId].roles, old(s.memberRoles), orgId)| != 1
      && memberRoleId in old(s.memberRoles)
    ensures r.Fail? ==> (r.error == NotFound || r.error == LastRole) && unchanged(s)
    ensures r.Pass? ==>
      var m := old(s.members)[userId];
      && s.memberRoles == old(s.memberRoles)[memberRoleId := old(s.memberRoles)[memberRoleId].(active := false)]
      && s.members == old(s.members)[userId := m.(roles := Without(m.roles, memberRoleId))]
    ensures s.orgs == old(s.orgs) && s.invitations == old(s.invitations) && s.contexts == old(s.contexts)
    ensures r.Pass? && |RolesInOrg(old(s.members)[userId].roles, old(s.memberRoles), orgId)| >= 1 ==>
      |RolesInOrg(s.members[userId].roles, s.memberRoles, orgId)| >= 1
  {
    var org := FindById(s.orgs, orgId);
    if org.Err? {
      return Fail(org.error);
    }
    if userId !in org.value.members {
      return Fail(NotFound);
    }
    var member := s.members[userId];
    if |RolesInOrg(member.roles, s.memberRoles, orgId)| == 1 {
      return Fail(LastRole);
    }
    if memberRoleId !in s.memberRoles {
      return Fail(NotFound);
    }
    RemovalCount(member.roles, s.memberRoles, memberRoleId, orgId);
    RemoveKeepsConsistent(s.orgs, s.members, s.memberRoles, s.invitations, s.contexts, userId, memberRoleId);
    var role := s.memberRoles[memberRoleId];
    s.memberRoles := s.memberRoles[memberRoleId := role.(active := false)];
    s.members := s.members[userId := member.(roles := Without(member.roles, memberRoleId))];
    r := Pass;
  }

  // ==== joinOrganization ====

  /** Set.addAll on the member's links: the ids not yet linked are appended in order. */
  function AddAll(links: seq<Id>, ids: seq<Id>): (r: seq<Id>)
    ensures forall x :: x in r <==> x in links || x in ids
    ensures NoDup(links) ==> NoDup(r)
    ensures |links| <= |r| && r[..|links|] == links
    decreases |ids|
  {
    if ids == [] then links
    else
      var next := if ids[0] in links then links else links + [ids[0]];
      assert forall x :: x in ids <==> x == ids[0] || x in ids[1..] by {
        assert ids == [ids[0]] + ids[1..];
      }
      assert NoDup(links) ==> NoDup(next);
      var r := AddAll(next, ids[1..]);
      assert r[..|links|] == r[..|next|][..|links|];
      r
  }

  /** findOrCreateMember: the stored member, or a new one with no roles. */
  function FindOrCreateMember(members: map<Id, MemberEntity>, userId: Id, userEmail: string): (m: MemberEntity)
    ensures userId in members ==> m == members[userId]
    ensures userId !in members ==> m == MemberEntity(userId, userEmail, [])
  {
    if userId in members then members[userId] else MemberEntity(userId, userEmail, [])
  }

  /**
   * The member after the join: found or created, with the invitee role ids
   * added after its own links, each once.
   */
  function JoinedMember(members: map<Id, MemberEntity>, userId: Id, userEmail: string, invitation: InvitationEntity)
    : (m: MemberEntity)
    ensures userId in members ==> m.id == members[userId].id && m.email == members[userId].email
    ensures userId !in members ==> m.id == userId && m.email == userEmail
    ensures forall x :: x in m.roles <==> x in FindOrCreateMember(members, userId, userEmail).roles
                                           || x in TemplateIds(invitation.inviteeRoles)
    ensures userId in members ==> |members[userId].roles| <= |m.roles| && m.roles[..|members[userId].roles|] == members[userId].roles
  {
    var found := FindOrCreateMember(members, userId, userEmail);
    found.(roles := AddAll(found.roles, TemplateIds(invitation.inviteeRoles)))
  }

  /** The organization table with `userId` added to the members of `orgId`; nothing else changes. */
  function AddedTo(orgs: map<Id, OrganizationEntity>, orgId: Id, userId: Id): (r: map<Id, OrganizationEntity>)
    requires orgId in orgs
    ensures r.Keys == orgs.Keys
    ensures forall k :: k in orgs && k != orgId ==> r[k] == orgs[k]
    ensures r[orgId].members == orgs[orgId].members + {userId}
    ensures r[orgId].(members := orgs[orgId].members) == orgs[orgId]
  {
    orgs[orgId := orgs[orgId].(members := orgs[orgId].members + {userId})]
  }

  /** acceptInvitation: accepted now, by `userId`. */
  function Accept(invitation: InvitationEntity, userId: Id, now: Time): (a: InvitationEntity)
    ensures a.status == Accepted && a.acceptedAt == Some(now) && a.acceptedMemberId == Some(userId)
    ensures a == invitation.(status := Accepted, acceptedAt := Some(now), acceptedMemberId := Some(userId))
  {
    invitation.(status := Accepted, acceptedAt := Some(now), acceptedMemberId := Some(userId))
  }

  /**
   * The membership join returns: the member with the invitation's roles only
   * (not the roles it held before), and the organization.
   */
  function JoinedMembership(member: MemberEntity, org: OrganizationEntity, invitation: InvitationEntity)
    : (m: OrganizationMembership)
    ensures m.member.id == member.id && m.member.userEmail == member.email
    ensures |m.member.roles| == |invitation.inviteeRoles|
    ensures forall i :: 0 <= i < |invitation.inviteeRoles| ==>
      m.member.roles[i] == MemberRoleConverter.ToDomain(invitation.inviteeRoles[i])
    ensures m.org.id == org.id && m.org.name == org.name && m.org.owner == org.owner
  {
    OrganizationMembership(MemberConverter.ToDomainWithRoles(member, invitation.inviteeRoles),
                           OrganizationConverter.ToDomain(org))
  }

  /** The AccessDeniedException message for an e-mail mismatch. */
  function MismatchMessage(userEmail: string): string {
    "Access denied. User email " + userEmail + " doesn't match invite"
  }

  /**
   * Once accepted, an invitation's token is spent: at any later time
   * redeeming it again fails, as expired or as already accepted.
   */
  lemma AcceptedTokenSpent(invitations: map<Id, InvitationEntity>, k: Id, userId: Id, now: Time, later: Time)
    requires InvitationsValid(invitations) && k in invitations
    ensures InvitationsValid(invitations[k := Accept(invitations[k], userId, now)])
    ensures InvitationService.FindByToken(invitations[k := Accept(invitations[k], userId, now)], invitations[k].acceptToken, later).Err?
  {
    var invs := invitations[k := Accept(invitations[k], userId, now)];
    forall a, b | a in invs && b in invs && invs[a].acceptToken == invs[b].acceptToken ensures a == b {
      assert invitations[a].acceptToken == invs[a].acceptToken && invitations[b].acceptToken == invs[b].acceptToken;
    }
    assert TemplatesValid(invs[k]) by {
      assert invs[k].inviteeRoles == invitations[k].inviteeRoles;
    }
    assert InvitationsValid(invs);
    var found := InvitationService.FindByToken(invs, invitations[k].acceptToken, later);
    assert found == InvitationService.ValidateInvitation(invs[k], later);
  }

  lemma TokenSpentForever(invitations: map<Id, InvitationEntity>, k: Id, userId: Id, now: Time,
                          accepted: map<Id, InvitationEntity>)
    requires InvitationsValid(invitations) && k in invitations
    requires accepted == invitations[k := Accept(invitations[k], userId, now)]
    ensures InvitationsValid(accepted)
    ensures forall later :: InvitationService.FindByToken(accepted, invitations[k].acceptToken, later).Err?
  {
    AcceptedTokenSpent(invitations, k, userId, now, now);
    forall later | true ensures InvitationService.FindByToken(accepted, invitations[k].acceptToken, later).Err? {
      AcceptedTokenSpent(invitations, k, userId, now, later);
    }
  }

  /** The invitee roles are stored rows, so every link of the joined member points to a stored role. */
  lemma JoinedLinksStored(found: MemberEntity, table: map<Id, MemberRoleEntity>, invitation: InvitationEntity)
    requires LinksIn(found.roles, table)
    requires forall i :: 0 <= i < |invitation.inviteeRoles| ==> invitation.inviteeRoles[i].id in table
    ensures LinksIn(AddAll(found.roles, TemplateIds(invitation.inviteeRoles)), table)
  {
    var links := AddAll(found.roles, TemplateIds(invitation.inviteeRoles));
    forall i | 0 <= i < |links| ensures links[i] in table {
      assert links[i] in found.roles || links[i] in TemplateIds(invitation.inviteeRoles);
    }
  }

  /** The joined member links only stored roles, once each. */
  lemma JoinedMembersValid(members: map<Id, MemberEntity>, table: map<Id, MemberRoleEntity>,
                           invitation: InvitationEntity, userId: Id, userEmail: string)
    requires MembersValid(members, table)
    requires forall i :: 0 <= i < |invitation.inviteeRoles| ==> invitation.inviteeRoles[i].id in table
    ensures MembersValid(members[userId := JoinedMember(members, userId, userEmail, invitation)], table)
  {
    var m := FindOrCreateMember(members, userId, userEmail);
    var joined := JoinedMember(members, userId, userEmail, invitation);
    var members' := members[userId := joined];
    JoinedLinksStored(m, table, invitation);
    assert NoDup(joined.roles) && LinksIn(joined.roles, table);
    forall k | k in members'
      ensures members'[k].id == k && NoDup(members'[k].roles) && LinksIn(members'[k].roles, table)
    {
      if k != userId {
        assert LinksIn(members[k].roles, table);
      }
    }
  }

  /** Adding a stored member to an organization keeps every organization linking only stored members. */
  lemma AddedToValid(orgs: map<Id, OrganizationEntity>, members: map<Id, MemberEntity>, orgId: Id, userId: Id, m: MemberEntity)
    requires OrgsValid(orgs, members) && orgId in orgs
    ensures OrgsValid(AddedTo(orgs, orgId, userId), members[userId := m])
  {
    var orgs' := AddedTo(orgs, orgId, userId);
    forall k | k in orgs' ensures orgs'[k].id == k && orgs'[k].members <= members[userId := m].Keys {
      if k == orgId {
        assert orgs'[k].(members := orgs[k].members) == orgs[k];
      }
    }
  }

  lemma JoinKeepsConsistent(orgs: map<Id, OrganizationEntity>, members: map<Id, MemberEntity>,
                            table: map<Id, MemberRoleEntity>, invitations: map<Id, InvitationEntity>,
                            contexts: map<Id, Id>, invitation: InvitationEntity, userId: Id, userEmail: string, now: Time)
    requires Consistent(orgs, members, table, invitations, contexts)
    requires invitation.id in invitations && invitations[invitation.id] == invitation
    requires invitation.organizationId in orgs
    ensures Consistent(AddedTo(orgs, invitation.organizationId, userId),
                       members[userId := JoinedMember(members, userId, userEmail, invitation)],
                       table,
                       invitations[invitation.id := Accept(invitation, userId, now)],
                       contexts)
  {
    RestampedValid(table, invitations, invitation.id, Accept(invitation, userId, now));
    AddedToValid(orgs, members, invitation.organizationId, userId, JoinedMember(members, userId, userEmail, invitation));
    assert forall i :: 0 <= i < |invitation.inviteeRoles| ==> StoredRow(table, invitation.inviteeRoles[i]);
    JoinedMembersValid(members, table, invitation, userId, userEmail);
  }

  /**
   * A role of the organization that the member links and that is stored is
   * listed by getOrgMember exactly when its stored row is still active.
   */
  lemma ListedIffActive(orgs: map<Id, OrganizationEntity>, members: map<Id, MemberEntity>,
                        table: map<Id, MemberRoleEntity>, userId: Id, orgId: Id, e: MemberRoleEntity)
    requires OrgsValid(orgs, members) && MembersValid(members, table) && RolesKeyed(table)
    requires orgId in orgs && userId in orgs[orgId].members
    requires StoredRow(table, e) && e.organizationId == orgId && e.id in members[userId].roles
    ensures GetOrgMember(orgs, members, table, userId, orgId).Ok?
    ensures MemberRoleConverter.ToDomain(e) in GetOrgMember(orgs, members, table, userId, orgId).value.roles
        <==> table[e.id].active
  {
    var links := members[userId].roles;
    var row := table[e.id];
    var listed := GetOrgMember(orgs, members, table, userId, orgId).value.roles;
    assert MemberRoleConverter.ToDomain(row) == MemberRoleConverter.ToDomain(e) by {
      assert row.id == e.id && row.roleId == e.roleId && row.scopeId == e.scopeId && row.resourceId == e.resourceId;
    }
    if row.active {
      var j :| 0 <= j < |links| && links[j] == e.id;
      assert IsActiveOrgMemberRole(orgId, table[links[j]]);
    }
    if MemberRoleConverter.ToDomain(e) in listed {
      var j :| 0 <= j < |links| && IsActiveOrgMemberRole(orgId, table[links[j]])
               && MemberRoleConverter.ToDomain(e) == MemberRoleConverter.ToDomain(table[links[j]]);
      assert table[links[j]].id == e.id;
    }
  }

  /**
   * getOrgMember finds the user in the invitation's organization; each
   * invitee role is listed exactly when its stored row is still active.
   */
  ghost predicate ListsInviteeRoles(orgs: map<Id, OrganizationEntity>, members: map<Id, MemberEntity>,
                                    table: map<Id, MemberRoleEntity>, userId: Id, invitation: InvitationEntity)
  {
    && OrgsValid(orgs, members) && MembersValid(members, table)
    && GetOrgMember(orgs, members, table, userId, invitation.organizationId).Ok?
    && forall i :: 0 <= i < |invitation.inviteeRoles| ==>
         && invitation.inviteeRoles[i].id in table
         && (MemberRoleConverter.ToDomain(invitation.inviteeRoles[i])
               in GetOrgMember(orgs, members, table, userId, invitation.organizationId).value.roles
             <==> table[invitation.inviteeRoles[i].id].active)
  }

  /** The tables after a join, with the facts the join promises about them. */
  lemma JoinedState(orgs: map<Id, OrganizationEntity>, members: map<Id, MemberEntity>,
                    table: map<Id, MemberRoleEntity>, invitations: map<Id, InvitationEntity>,
                    contexts: map<Id, Id>, invitation: InvitationEntity, userId: Id, userEmail: string, now: Time,
                    orgs': map<Id, OrganizationEntity>, members': map<Id, MemberEntity>,
                    invitations': map<Id, InvitationEntity>)
    requires Consistent(orgs, members, table, invitations, contexts)
    requires invitation.id in invitations && invitations[invitation.id] == invitation
    requires invitation.organizationId in orgs
    requires orgs' == AddedTo(orgs, invitation.organizationId, userId)
    requires members' == members[userId := JoinedMember(members, userId, userEmail, invitation)]
    requires invitations' == invitations[invitation.id := Accept(invitation, userId, now)]
    ensures Consistent(orgs', members', table, invitations', contexts)
    ensures forall later :: InvitationService.FindByToken(invitations', invitation.acceptToken, later).Err?
    ensures ListsInviteeRoles(orgs', members', table, userId, invitation)
    ensures forall i :: 0 <= i < |invitation.inviteeRoles| ==>
      && invitation.inviteeRoles[i].id in table
      && MemberRoleConverter.ToDomain(invitation.inviteeRoles[i]) == MemberRoleConverter.ToDomain(table[invitation.inviteeRoles[i].id])
  {
    var orgId := invitation.organizationId;
    JoinKeepsConsistent(orgs, members, table, invitations, contexts, invitation, userId, userEmail, now);
    TokenSpentForever(invitations, invitation.id, userId, now, invitations');
    assert TemplatesValid(invitation);
    forall i | 0 <= i < |invitation.inviteeRoles|
      ensures MemberRoleConverter.ToDomain(invitation.inviteeRoles[i])
                in GetOrgMember(orgs', members', table, userId, orgId).value.roles
              <==> table[invitation.inviteeRoles[i].id].active
      ensures MemberRoleConverter.ToDomain(invitation.inviteeRoles[i]) == MemberRoleConverter.ToDomain(table[invitation.inviteeRoles[i].id])
    {
      var e := invitation.inviteeRoles[i];
      assert StoredRow(table, e);
      assert e.id in TemplateIds(invitation.inviteeRoles);
      ListedIffActive(orgs', members', table, userId, orgId, e);
      assert table[e.id].id == e.id && table[e.id].roleId == e.roleId;
    }
  }

  /**
   * A join changes nothing another user sees: every other user's
   * getOrgMember answer, in every organization, is what it was.
   */
  lemma JoinLeavesOthers(orgs: map<Id, OrganizationEntity>, members: map<Id, MemberEntity>,
                         table: map<Id, MemberRoleEntity>, invitation: InvitationEntity,
                         userId: Id, userEmail: string, other: Id, orgId: Id)
    requires OrgsValid(orgs, members) && MembersValid(members, table)
    requires forall i :: 0 <= i < |invitation.inviteeRoles| ==> invitation.inviteeRoles[i].id in table
    requires invitation.organizationId in orgs && other != userId
    ensures OrgsValid(AddedTo(orgs, invitation.organizationId, userId),
                      members[userId := JoinedMember(members, userId, userEmail, invitation)])
    ensures MembersValid(members[userId := JoinedMember(members, userId, userEmail, invitation)], table)
    ensures GetOrgMember(AddedTo(orgs, invitation.organizationId, userId),
                         members[userId := JoinedMember(members, userId, userEmail, invitation)],
                         table, other, orgId)
         == GetOrgMember(orgs, members, table, other, orgId)
  {
    var joined := JoinedMember(members, userId, userEmail, invitation);
    AddedToValid(orgs, members, invitation.organizationId, userId, joined);
    JoinedMembersValid(members, table, invitation, userId, userEmail);
    if orgId in orgs && other in orgs[orgId].members {
      assert members[userId := joined][other] == members[other];
    }
  }

  /**
   * The effect of a join once the invitation is redeemable, the e-mail
   * matches and the organization exists: findOrCreateMember, roles.addAll
   * (linking the invitee rows saved with the invitation), members.add and
   * acceptInvitation. The role table is not written.
   */
  method Enrol(s: Store, invitation: InvitationEntity, userId: Id, userEmail: string, now: Time)
    returns (membership: OrganizationMembership)
    requires s.Valid()
    requires invitation.id in s.invitations && s.invitations[invitation.id] == invitation
    requires invitation.organizationId in s.orgs
    modifies s
    ensures s.Valid()
    ensures var joined := JoinedMember(old(s.members), userId, userEmail, invitation);
      && s.members == old(s.members)[userId := joined]
      && s.orgs == AddedTo(old(s.orgs), invitation.organizationId, userId)
      && s.invitations == old(s.invitations)[invitation.id := Accept(invitation, userId, now)]
      && membership == JoinedMembership(joined, s.orgs[invitation.organizationId], invitation)
    ensures s.memberRoles == old(s.memberRoles) && s.contexts == old(s.contexts)
    ensures forall later :: InvitationService.FindByToken(s.invitations, invitation.acceptToken, later).Err?
  {
    var joined := JoinedMember(s.members, userId, userEmail, invitation);
    var orgs', members' := AddedTo(s.orgs, invitation.organizationId, userId), s.members[userId := joined];
    var invitations' := s.invitations[invitation.id := Accept(invitation, userId, now)];
    JoinKeepsConsistent(s.orgs, s.members, s.memberRoles, s.invitations, s.contexts, invitation, userId, userEmail, now);
    TokenSpentForever(s.invitations, invitation.id, userId, now, invitations');
    s.orgs, s.members, s.invitations := orgs', members', invitations';
    membership := JoinedMembership(joined, orgs'[invitation.organizationId], invitation);
  }

  /**
   * joinOrganization: redeeming the token is checked first (NotFound,
   * expired, revoked, already accepted), then the e-mail, case-insensitively
   * (AccessDenied, nothing changed), then the organization (NotFound). On
   * success the member is found or created, gains the invitee roles and joins
   * the organization, and the invitation is accepted by the user, so the
   * token cannot be redeemed again.
   */
  method JoinOrganization(s: Store, token: Id, userId: Id, userEmail: string, now: Time)
    returns (r: Result<OrganizationMembership>)
    requires s.Valid()
    modifies s
    ensures s.Valid()
    ensures var found := InvitationService.FindByToken(old(s.invitations), token, now);
      found.Err? ==> r == Err(found.error)
    ensures var found := InvitationService.FindByToken(old(s.invitations), token, now);
      found.Ok? && !EqualsIgnoreCase(userEmail, found.value.inviteeContactEmail) ==> r == Err(AccessDenied(MismatchMessage(userEmail)))
    ensures var found := InvitationService.FindByToken(old(s.invitations), token, now);
      found.Ok? && EqualsIgnoreCase(userEmail, found.value.inviteeContactEmail) && found.value.organizationId !in old(s.orgs)
      ==> r == Err(NotFound)
    ensures var found := InvitationService.FindByToken(old(s.invitations), token, now);
      r.Ok? <==> found.Ok? && EqualsIgnoreCase(userEmail, found.value.inviteeContactEmail)
                 && found.value.organizationId in old(s.orgs)
    ensures r.Err? ==> unchanged(s)
    ensures r.Ok? ==>
      var found := InvitationService.FindByToken(old(s.invitations), token, now);
      && found.Ok? && EqualsIgnoreCase(userEmail, found.value.inviteeContactEmail)
      && found.value.organizationId in old(s.orgs)
      && var invitation := found.value;
         var joined := JoinedMember(old(s.members), userId, userEmail, invitation);
         && s.members == old(s.members)[userId := joined]
         && s.orgs == AddedTo(old(s.orgs), invitation.organizationId, userId)
         && s.invitations == old(s.invitations)[invitation.id := Accept(invitation, userId, now)]
         && r.value == JoinedMembership(joined, s.orgs[invitation.organizationId], invitation)
    ensures s.memberRoles == old(s.memberRoles) && s.contexts == old(s.contexts)
    ensures r.Ok? ==> forall later :: InvitationService.FindByToken(s.invitations, token, later).Err?
  {
    var found := InvitationService.FindByToken(s.invitations, token, now);
    if found.Err? {
      return Err(found.error);
    }
    var invitation := found.value;
    if !EqualsIgnoreCase(userEmail, invitation.inviteeContactEmail) {
      return Err(AccessDenied(MismatchMessage(userEmail)));
    }
    var org := FindById(s.orgs, invitation.organizationId);
    if org.Err? {
      return Err(org.error);
    }
    var membership := Enrol(s, invitation, userId, userEmail, now);
    r := Ok(membership);
  }

  /** Every active role of the organization among the member's links is listed by getOrgMember. */
  lemma GetOrgMemberListsRoles(orgs: map<Id, OrganizationEntity>, members: map<Id, MemberEntity>,
                               table: map<Id, MemberRoleEntity>, userId: Id, orgId: Id, roles: seq<MemberRoleEntity>)
    requires OrgsValid(orgs, members) && MembersValid(members, table)
    requires orgId in orgs && userId in orgs[orgId].members
    requires forall i :: 0 <= i < |roles| ==> roles[i] in RolesInOrg(members[userId].roles, table, orgId)
    ensures GetOrgMember(orgs, members, table, userId, orgId).Ok?
    ensures forall i :: 0 <= i < |roles| ==>
      MemberRoleConverter.ToDomain(roles[i]) in GetOrgMember(orgs, members, table, userId, orgId).value.roles
  {
    var links := members[userId].roles;
    forall i | 0 <= i < |roles|
      ensures MemberRoleConverter.ToDomain(roles[i]) in GetOrgMember(orgs, members, table, userId, orgId).value.roles {
      var inOrg := RolesInOrg(links, table, orgId);
      var j :| 0 <= j < |inOrg| && inOrg[j] == roles[i];
      var k :| 0 <= k < |links| && inOrg[j] == table[links[k]];
    }
  }

  // ==== member context (switchMemberContext, findMemberContext) ====

  /** isNotExistUser: no member record for the user and no organization owned by it. */
  predicate IsNotExistUser(members: map<Id, MemberEntity>, orgs: map<Id, OrganizationEntity>, userId: Id) {
    userId !in members && forall k :: k in orgs ==> orgs[k].owner != userId
  }

  /**
   * findMemberContext: the id of the user's current organization, read
   * through the context's organization, or NotFound when the user has no
   * context.
   */
  function FindMemberContext(orgs: map<Id, OrganizationEntity>, contexts: map<Id, Id>, userId: Id): (r: Result<Id>)
    requires forall k :: k in orgs ==> orgs[k].id == k
    requires forall u :: u in contexts ==> contexts[u] in orgs
    ensures r.Ok? <==> userId in contexts
    ensures r.Ok? ==> r.value == contexts[userId] && r.value in orgs
    ensures r.Err? ==> r.error == NotFound
  {
    if userId in contexts then Ok(orgs[contexts[userId]].id) else Err(NotFound)
  }

  /**
   * switchMemberContext: NotFound when the organization is missing; a user
   * with a context is re-pointed to it; a user without one gets a new context
   * unless it is neither a member nor the owner of any organization
   * (NotFound). Contexts of other users are untouched.
   */
  method SwitchMemberContext(s: Store, userId: Id, orgId: Id) returns (r: Outcome)
    requires s.Valid()
    modifies s
    ensures s.Valid()
    ensures r.Fail? <==>
      orgId !in old(s.orgs) || (userId !in old(s.contexts) && IsNotExistUser(old(s.members), old(s.orgs), userId))
    ensures r.Fail? ==> r.error == NotFound && unchanged(s)
    ensures r.Pass? ==> s.contexts == old(s.contexts)[userId := orgId]
    ensures s.orgs == old(s.orgs) && s.members == old(s.members) && s.memberRoles == old(s.memberRoles)
    ensures s.invitations == old(s.invitations)
    ensures r.Pass? ==> FindMemberContext(s.orgs, s.contexts, userId) == Ok(orgId)
    ensures forall u :: u != userId ==> FindMemberContext(s.orgs, s.contexts, u) == FindMemberContext(old(s.orgs), old(s.contexts), u)
  {
    var org := FindById(s.orgs, orgId);
    if org.Err? {
      return Fail(org.error);
    }
    if userId in s.contexts {
      s.contexts := s.contexts[userId := org.value.id];
    } else {
      if IsNotExistUser(s.members, s.orgs, userId) {
        return Fail(NotFound);
      }
      s.contexts := s.contexts[userId := org.value.id];
    }
    r := Pass;
  }

  // ==== cancelOrgMembership, getMembership ====

  /** The organizations with `userId` taken out of the members of `orgId`. */
  function RemovedFrom(orgs: map<Id, OrganizationEntity>, orgId: Id, userId: Id): (r: map<Id, OrganizationEntity>)
    requires orgId in orgs
    ensures r.Keys == orgs.Keys
    ensures forall k :: k in orgs && k != orgId ==> r[k] == orgs[k]
    ensures userId !in r[orgId].members
    ensures forall u :: u != userId ==> (u in r[orgId].members <==> u in orgs[orgId].members)
    ensures r[orgId].(members := orgs[orgId].members) == orgs[orgId]
  {
    orgs[orgId := orgs[orgId].(members := orgs[orgId].members - {userId})]
  }

  /**
   * After the user is taken out of an organization the store stays
   * consistent, getOrgMember no longer finds it there, and every other
   * (user, organization) pair reads as before.
   */
  lemma CancelledMembership(orgs: map<Id, OrganizationEntity>, members: map<Id, MemberEntity>,
                            table: map<Id, MemberRoleEntity>, orgId: Id, userId: Id, orgs': map<Id, OrganizationEntity>)
    requires OrgsValid(orgs, members) && MembersValid(members, table)
    requires orgId in orgs && orgs' == RemovedFrom(orgs, orgId, userId)
    ensures OrgsValid(orgs', members)
    ensures GetOrgMember(orgs', members, table, userId, orgId) == Err(NotFound)
    ensures forall u, o :: u != userId || o != orgId ==>
      GetOrgMember(orgs', members, table, u, o) == GetOrgMember(orgs, members, table, u, o)
  {
    forall u, o | u != userId || o != orgId
      ensures GetOrgMember(orgs', members, table, u, o) == GetOrgMember(orgs, members, table, u, o) {
      if o in orgs {
        assert u in orgs'[o].members <==> u in orgs[o].members;
      }
    }
  }

  /**
   * cancelOrgMembership: NotFound when the organization or the member record
   * is missing; otherwise the user leaves the organization's members and
   * nothing else changes (its roles stay linked and active).
   */
  method CancelOrgMembership(s: Store, orgId: Id, userId: Id) returns (r: Outcome)
    requires s.Valid()
    modifies s
    ensures s.Valid()
    ensures r.Fail? <==> orgId !in old(s.orgs) || userId !in old(s.members)
    ensures r.Fail? ==> r.error == NotFound && unchanged(s)
    ensures r.Pass? ==> s.orgs == RemovedFrom(old(s.orgs), orgId, userId)
    ensures s.members == old(s.members) && s.memberRoles == old(s.memberRoles)
    ensures s.invitations == old(s.invitations) && s.contexts == old(s.contexts)
    ensures r.Pass? ==> GetOrgMember(s.orgs, s.members, s.memberRoles, userId, orgId) == Err(NotFound)
  {
    var org := FindById(s.orgs, orgId);
    if org.Err? {
      return Fail(org.error);
    }
    if userId !in s.members {
      return Fail(NotFound);
    }
    var orgs' := RemovedFrom(s.orgs, orgId, userId);
    CancelledMembership(s.orgs, s.members, s.memberRoles, orgId, userId, orgs');
    s.orgs := orgs';
    r := Pass;
  }

  /**
   * getMembership: NotFound when the organization or the member record is
   * missing; otherwise the member with all of its roles, of every
   * organization, and the organization. Membership of the organization is
   * not required.
   */
  function GetMembership(orgs: map<Id, OrganizationEntity>, members: map<Id, MemberEntity>,
                         table: map<Id, MemberRoleEntity>, orgId: Id, userId: Id): (r: Result<OrganizationMembership>)
    requires OrgsValid(orgs, members) && MembersValid(members, table) && RolesKeyed(table)
    ensures r.Err? <==> orgId !in orgs || userId !in members
    ensures r.Err? ==> r.error == NotFound
    ensures r.Ok? ==> r.value.member.id == userId && r.value.member.userEmail == members[userId].email
    ensures r.Ok? ==> |r.value.member.roles| == |members[userId].roles|
    ensures r.Ok? ==> forall i :: 0 <= i < |members[userId].roles| ==> r.value.member.roles[i].id == Some(members[userId].roles[i])
    ensures r.Ok? ==> forall i :: 0 <= i < |members[userId].roles| ==>
      r.value.member.roles[i] == MemberRoleConverter.ToDomain(table[members[userId].roles[i]])
    ensures r.Ok? ==> r.value.org == OrganizationConverter.ToDomain(orgs[orgId]) && r.value.org.id == orgId
  {
    var org := FindById(orgs, orgId);
    if org.Err? then Err(org.error)
    else if userId !in members then Err(NotFound)
    else Ok(OrganizationMembership(MemberConverter.ToDomain(members[userId], table), OrganizationConverter.ToDomain(org.value)))
  }

  /**
   * getMembership and getOrgMember disagree on a member record outside the
   * organization: the first answers, the second fails NotFound. In
   * particular getMembership still answers after cancelOrgMembership.
   */
  lemma MembershipOutsideOrganization(orgs: map<Id, OrganizationEntity>, members: map<Id, MemberEntity>,
                                      table: map<Id, MemberRoleEntity>, orgId: Id, userId: Id)
    requires OrgsValid(orgs, members) && MembersValid(members, table) && RolesKeyed(table)
    requires orgId in orgs && userId in members
    ensures GetMembership(RemovedFrom(orgs, orgId, userId), members, table, orgId, userId).Ok?
    ensures GetOrgMember(RemovedFrom(orgs, orgId, userId), members, table, userId, orgId) == Err(NotFound)
  {
    CancelledMembership(orgs, members, table, orgId, userId, RemovedFrom(orgs, orgId, userId));
  }
}
