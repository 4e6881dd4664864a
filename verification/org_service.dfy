/** The organisation service over an abstract store: creation, the read paths
    that hide soft-deleted organisations, deletion, membership management with
    the permission matrix and the last-owner protection, ownership transfer and
    the organisation switch. The repositories become one immutable store; the
    id generator, the random suffix and the clock become parameters. */
module OrgService {
  import opened Wrappers
  import opened Text
  import opened OrgValues
  import opened OrgEntities
  import Auth

  // ---------------------------------------------------------------------------
  // store

  /** A user account as the organisation services see it. Only active accounts
      are listed: the user repository never returns a soft-deleted user. */
  datatype Account = Account(id: string, email: string, allowInvites: bool)

  /** Memberships are keyed by (organisation id, user id): the membership
      repository finds at most one membership per pair. */
  type MemberKey = (string, string)

  datatype OrgStore = OrgStore(
    orgs: map<string, Organization>,
    members: map<MemberKey, OrgMember>,
    users: seq<Account>,
    invites: map<string, OrgInvite>,
    activities: seq<OrgActivity>)

  /** What a service call leaves behind: the store after every write it made,
      and its result. Some calls write and then fail, so an error does not
      always mean an unchanged store. */
  datatype Outcome<T> = Outcome(store: OrgStore, result: Result<T, OrgError>)

  function Fail<T>(s: OrgStore, e: OrgError): Outcome<T> { Outcome(s, Err(e)) }

  function Done<T>(s: OrgStore, v: T): Outcome<T> { Outcome(s, Ok(v)) }

  /** `UserRepository::find_by_id`. */
  function FindUserById(users: seq<Account>, id: string): (r: Option<Account>)
    ensures r.Some? ==> r.value in users && r.value.id == id
    ensures r.None? <==> forall u :: u in users ==> u.id != id
  {
    if |users| == 0 then None
    else if users[0].id == id then Some(users[0])
    else FindUserById(users[1..], id)
  }

  /** `UserRepository::find_by_email`. */
  function FindUserByEmail(users: seq<Account>, email: string): (r: Option<Account>)
    ensures r.Some? ==> r.value in users && r.value.email == email
    ensures r.None? <==> forall u :: u in users ==> u.email != email
  {
    if |users| == 0 then None
    else if users[0].email == email then Some(users[0])
    else FindUserByEmail(users[1..], email)
  }

  predicate IsMember(s: OrgStore, orgId: string, userId: string) { (orgId, userId) in s.members }

  function RoleOf(s: OrgStore, orgId: string, userId: string): OrgRole
    requires IsMember(s, orgId, userId)
  {
    s.members[(orgId, userId)].role
  }

  predicate IsLiveOrg(s: OrgStore, orgId: string) {
    orgId in s.orgs && !IsOrgDeleted(s.orgs[orgId])
  }

  /** `OrgActivityRepository::save`: the record is appended. The service
      ignores a failure of this save, so the model never fails here. */
  function Logged(s: OrgStore, id: string, orgId: string, kind: ActivityType, actor: string,
                  target: Option<string>, metadata: Option<map<string, string>>, now: int): (s': OrgStore)
    ensures s'.activities == s.activities + [OrgActivity(id, orgId, kind, actor, target, metadata, now)]
    ensures s'.(activities := s.activities) == s
  {
    s.(activities := s.activities + [OrgActivity(id, orgId, kind, actor, target, metadata, now)])
  }

  function RoleChange(from: OrgRole, to: OrgRole): map<string, string> {
    map["old_role" := RoleName(from), "new_role" := RoleName(to)]
  }

  // ---------------------------------------------------------------------------
  // owners

  /** The owner memberships of one organisation, as `count_owners` counts them. */
  function Owners(members: map<MemberKey, OrgMember>, orgId: string): set<MemberKey> {
    set k | k in members && k.0 == orgId && members[k].role == Owner
  }

  function OwnerCount(s: OrgStore, orgId: string): nat { |Owners(s.members, orgId)| }

  /** No organisation that had an owner before has lost its last one. */
  ghost predicate KeepsOwners(s: OrgStore, s': OrgStore) {
    forall orgId :: OwnerCount(s, orgId) >= 1 ==> OwnerCount(s', orgId) >= 1
  }

  /** Saving a membership adds its key to the owners of its organisation when
      the role is Owner and removes it otherwise; other organisations are not
      affected. */
  lemma OwnersAfterSave(members: map<MemberKey, OrgMember>, k: MemberKey, m: OrgMember, orgId: string)
    ensures Owners(members[k := m], orgId) ==
      if k.0 == orgId && m.role == Owner then Owners(members, orgId) + {k} else Owners(members, orgId) - {k}
  {
  }

  lemma OwnersAfterDelete(members: map<MemberKey, OrgMember>, k: MemberKey, orgId: string)
    ensures Owners(members - {k}, orgId) == Owners(members, orgId) - {k}
  {
  }

  /** Saving a membership never loses an owner except, possibly, the one saved. */
  lemma SaveKeepsOwners(s: OrgStore, k: MemberKey, m: OrgMember)
    requires k in s.members && s.members[k].role == Owner && m.role != Owner ==> OwnerCount(s, k.0) > 1
    ensures KeepsOwners(s, s.(members := s.members[k := m]))
  {
    var s' := s.(members := s.members[k := m]);
    forall orgId | OwnerCount(s, orgId) >= 1
      ensures OwnerCount(s', orgId) >= 1
    {
      OwnersAfterSave(s.members, k, m, orgId);
      var before := Owners(s.members, orgId);
      if k.0 == orgId && m.role == Owner {
        assert k in Owners(s'.members, orgId);
      } else if k in before {
        assert |before - {k}| == |before| - 1;
      } else {
        assert before - {k} == before;
      }
    }
  }

  /** Deleting a membership never loses an owner except, possibly, the one deleted. */
  lemma DeleteKeepsOwners(s: OrgStore, k: MemberKey)
    requires k in s.members && s.members[k].role == Owner ==> OwnerCount(s, k.0) > 1
    ensures KeepsOwners(s, s.(members := s.members - {k}))
  {
    var s' := s.(members := s.members - {k});
    forall orgId | OwnerCount(s, orgId) >= 1
      ensures OwnerCount(s', orgId) >= 1
    {
      OwnersAfterDelete(s.members, k, orgId);
      var before := Owners(s.members, orgId);
      if k in before {
        assert |before - {k}| == |before| - 1;
      } else {
        assert before - {k} == before;
      }
    }
  }

  // ---------------------------------------------------------------------------
  // creation

  /** `create_org`: the name is validated first and nothing is written when it
      is refused; otherwise the organisation, its creator's Owner membership
      (already marked as accessed) and an `OrgCreated` record are saved. */
  function CreateOrg(s: OrgStore, userId: string, rawName: string, suffix: string,
                     orgId: string, memberId: string, activityId: string, now: int): (o: Outcome<Organization>)
    ensures o.result.Ok? <==> NewOrgName(rawName).Ok?
    ensures o.result.Err? ==> o.store == s && o.result.error.InvalidOrgName?
    ensures o.result.Ok? ==>
      var org := o.result.value;
      && org.id == orgId && org.name == Trim(rawName)
      && !org.isPersonal && !IsOrgDeleted(org) && org.createdAt == now
      && o.store.orgs == s.orgs[orgId := org]
      && IsMember(o.store, orgId, userId) && RoleOf(o.store, orgId, userId) == Owner
      && o.store.members[(orgId, userId)].lastAccessedAt == Some(now)
      && OwnerCount(o.store, orgId) >= 1
      && o.store.activities == s.activities + [OrgActivity(activityId, orgId, OrgCreated, userId, None, None, now)]
  {
    match NewOrgName(rawName)
    case Err(e) => Fail(s, e)
    case Ok(name) =>
      var org := NewOrganization(orgId, name, GenerateSlug(name, suffix), now);
      var owner := TouchLastAccessed(NewMember(memberId, orgId, userId, Owner, now), now);
      var s' := s.(orgs := s.orgs[orgId := org], members := s.members[(orgId, userId) := owner]);
      assert (orgId, userId) in Owners(s'.members, orgId);
      Done(Logged(s', activityId, orgId, OrgCreated, userId, None, None, now), org)
  }

  /** The slug `create_org` stores, built from a drawn suffix, is one the
      organisation repository can read back. */
  lemma CreatedSlugIsReadable(s: OrgStore, userId: string, rawName: string, draws: seq<nat>,
                              orgId: string, memberId: string, activityId: string, now: int)
    requires |draws| == 4 && forall i :: 0 <= i < 4 ==> draws[i] < |SuffixCharset|
    requires CreateOrg(s, userId, rawName, RandomSuffix(draws), orgId, memberId, activityId, now).result.Ok?
    ensures var org := CreateOrg(s, userId, rawName, RandomSuffix(draws), orgId, memberId, activityId, now).result.value;
      SlugFromString(org.slug) == Ok(org.slug)
  {
    GeneratedSlugIsReadable(Trim(rawName), RandomSuffix(draws));
  }

  // ---------------------------------------------------------------------------
  // read paths

  /** `get_org`: a missing and a soft-deleted organisation are both
      `OrgNotFound`, checked before membership. */
  function GetOrg(s: OrgStore, orgId: string, userId: string): (r: Result<(Organization, OrgRole), OrgError>)
    ensures !IsLiveOrg(s, orgId) ==> r == Err(OrgNotFound)
    ensures IsLiveOrg(s, orgId) && !IsMember(s, orgId, userId) ==> r == Err(NotOrgMember)
    ensures r.Ok? ==>
      && IsLiveOrg(s, orgId) && IsMember(s, orgId, userId)
      && r.value == (s.orgs[orgId], RoleOf(s, orgId, userId))
  {
    if !IsLiveOrg(s, orgId) then Err(OrgNotFound)
    else if !IsMember(s, orgId, userId) then Err(NotOrgMember)
    else Ok((s.orgs[orgId], RoleOf(s, orgId, userId)))
  }

  /** `list_members`: the memberships of a live organisation the requester
      belongs to, leaving out those whose user account is gone. */
  function ListMembers(s: OrgStore, orgId: string, userId: string): (r: Result<set<(string, OrgRole)>, OrgError>)
    ensures !IsLiveOrg(s, orgId) ==> r == Err(OrgNotFound)
    ensures IsLiveOrg(s, orgId) && !IsMember(s, orgId, userId) ==> r == Err(NotOrgMember)
    ensures r.Ok? ==> forall u, role ::
      (u, role) in r.value <==> IsMember(s, orgId, u) && RoleOf(s, orgId, u) == role && FindUserById(s.users, u).Some?
  {
    if !IsLiveOrg(s, orgId) then Err(OrgNotFound)
    else if !IsMember(s, orgId, userId) then Err(NotOrgMember)
    else Ok(set k | k in s.members && k.0 == orgId && FindUserById(s.users, k.1).Some? :: (k.1, s.members[k].role))
  }

  // ---------------------------------------------------------------------------
  // organisation update and deletion

  /** The guards `update_org` passes before it looks at the new name. */
  predicate MayUpdateOrg(s: OrgStore, orgId: string, userId: string) {
    IsLiveOrg(s, orgId) && IsMember(s, orgId, userId) && CanUpdateOrg(RoleOf(s, orgId, userId))
  }

  /** `update_org`: the organisation must be live and the requester an Owner
      or Admin. Without a new name nothing is written; with one, the name is
      validated, the slug regenerated with a fresh suffix and an
      `OrgNameChanged` record keeps the old and the new name. */
  function UpdateOrg(s: OrgStore, orgId: string, userId: string, newName: Option<string>, suffix: string,
                     activityId: string, now: int): (o: Outcome<(Organization, OrgRole)>)
    ensures !IsLiveOrg(s, orgId) ==> o == Fail(s, OrgNotFound)
    ensures IsLiveOrg(s, orgId) && !IsMember(s, orgId, userId) ==> o == Fail(s, NotOrgMember)
    ensures IsLiveOrg(s, orgId) && IsMember(s, orgId, userId) && RoleOf(s, orgId, userId) == Member
            ==> o == Fail(s, InsufficientPermissions)
    ensures o.result.Err? ==> o.store == s
    ensures o.result.Ok? ==> MayUpdateOrg(s, orgId, userId) && o.store.members == s.members
    ensures o.result.Ok? && newName.None? ==> o.store == s && o.result.value.0 == s.orgs[orgId]
    ensures o.result.Ok? && newName.Some? ==>
      && o.result.value.0.name == Trim(newName.value)
      && Renamed(s, o.store, orgId, o.result.value.0)
    ensures newName.Some? && NewOrgName(newName.value).Err? && MayUpdateOrg(s, orgId, userId)
            ==> o == Fail(s, NewOrgName(newName.value).error)
  {
    if !IsLiveOrg(s, orgId) then Fail(s, OrgNotFound)
    else if !IsMember(s, orgId, userId) then Fail(s, NotOrgMember)
    else
      var role := RoleOf(s, orgId, userId);
      if !CanUpdateOrg(role) then Fail(s, InsufficientPermissions)
      else match newName
        case None => Done(s, (s.orgs[orgId], role))
        case Some(raw) =>
          match NewOrgName(raw)
          case Err(e) => Fail(s, e)
          case Ok(name) =>
            var (s', org) := Rename(s, orgId, userId, name, suffix, activityId, now);
            Done(s', (org, role))
  }

  /** What a rename leaves behind: the organisation keeps its id, its personal
      flag and its deletion state, only its own entry changes, memberships are
      untouched, and one `OrgNameChanged` record with the old and the new name
      is appended. */
  ghost predicate Renamed(s: OrgStore, s': OrgStore, orgId: string, org: Organization)
    requires orgId in s.orgs
  {
    var before := s.orgs[orgId];
    && org.id == before.id && org.isPersonal == before.isPersonal && org.deletedAt == before.deletedAt
    && s'.orgs == s.orgs[orgId := org] && s'.members == s.members && s'.invites == s.invites
    && |s'.activities| == |s.activities| + 1 && s'.activities[..|s.activities|] == s.activities
    && s'.activities[|s.activities|].activityType == OrgNameChanged
    && s'.activities[|s.activities|].metadata == Some(map["old_name" := before.name, "new_name" := org.name])
  }

  /** The write half of `update_org` once the new name has been validated. */
  function Rename(s: OrgStore, orgId: string, userId: string, name: string, suffix: string,
                  activityId: string, now: int): (r: (OrgStore, Organization))
    requires orgId in s.orgs
    ensures r.1.name == name && r.1.slug == GenerateSlug(name, suffix)
    ensures Renamed(s, r.0, orgId, r.1)
  {
    var before := s.orgs[orgId];
    var org := UpdateOrgName(before, name, GenerateSlug(name, suffix), now);
    var s' := s.(orgs := s.orgs[orgId := org]);
    var metadata := map["old_name" := before.name, "new_name" := name];
    (Logged(s', activityId, orgId, OrgNameChanged, userId, None, Some(metadata), now), org)
  }

  /** `delete_org`: only a missing organisation is `OrgNotFound` here; a
      deleted one reaches the soft delete and fails there. The requester must
      be an Owner, and memberships are kept. */
  function DeleteOrg(s: OrgStore, orgId: string, userId: string, now: int): (o: Outcome<()>)
    ensures orgId !in s.orgs ==> o == Fail(s, OrgNotFound)
    ensures orgId in s.orgs && !IsMember(s, orgId, userId) ==> o == Fail(s, NotOrgMember)
    ensures o.result.Err? ==> o.store == s
    ensures o.result.Ok? <==> orgId in s.orgs && IsMember(s, orgId, userId) && CanDeleteOrg(RoleOf(s, orgId, userId))
                              && !s.orgs[orgId].isPersonal && !IsOrgDeleted(s.orgs[orgId])
    ensures o.result.Ok? ==>
      && orgId in o.store.orgs && IsOrgDeleted(o.store.orgs[orgId])
      && o.store == s.(orgs := s.orgs[orgId := o.store.orgs[orgId]])
    ensures (orgId in s.orgs && IsOrgDeleted(s.orgs[orgId]) && !s.orgs[orgId].isPersonal
             && IsMember(s, orgId, userId) && RoleOf(s, orgId, userId) == Owner)
            ==> o == Fail(s, OrgAlreadyDeleted)
  {
    if orgId !in s.orgs then Fail(s, OrgNotFound)
    else if !IsMember(s, orgId, userId) then Fail(s, NotOrgMember)
    else if !CanDeleteOrg(RoleOf(s, orgId, userId)) then Fail(s, InsufficientPermissions)
    else match SoftDeleteOrg(s.orgs[orgId], now)
      case Err(e) => Fail(s, e)
      case Ok(org) => Done(s.(orgs := s.orgs[orgId := org]), ())
  }

  // ---------------------------------------------------------------------------
  // adding a member

  /** Whether adding a member with `role` also needs the right to manage
      admins. As written only the Admin role does, so an Admin may add an
      Owner; the corrected rule asks it for every role above Member. */
  predicate AddNeedsAdminRights(role: OrgRole, asWritten: bool) {
    if asWritten then role == Admin else role != Member
  }

  /** The checks `add_member` makes on the requester, in its order: a live
      organisation, a membership, a readable role, the right to manage members
      and, where the role needs it, the right to manage admins. */
  predicate AddGuardsPass(s: OrgStore, orgId: string, requester: string, roleName: string, asWritten: bool) {
    && IsLiveOrg(s, orgId) && IsMember(s, orgId, requester)
    && RoleFromStr(roleName).Ok?
    && CanManageMembers(RoleOf(s, orgId, requester))
    && (AddNeedsAdminRights(RoleFromStr(roleName).value, asWritten) ==> CanManageAdmins(RoleOf(s, orgId, requester)))
  }

  /** `add_member`, with the admin-rights rule chosen by `asWritten`. An
      unreadable address and an unknown one are both `UserNotFound`; a user
      who already belongs to the organisation is `AlreadyMember`. The new
      membership has never been accessed. */
  function AddMemberWith(s: OrgStore, orgId: string, requester: string, rawEmail: string, roleName: string,
                         memberId: string, activityId: string, now: int, asWritten: bool): (o: Outcome<OrgMember>)
    ensures !IsLiveOrg(s, orgId) ==> o == Fail(s, OrgNotFound)
    ensures IsLiveOrg(s, orgId) && !IsMember(s, orgId, requester) ==> o == Fail(s, NotOrgMember)
    ensures IsLiveOrg(s, orgId) && IsMember(s, orgId, requester) && RoleFromStr(roleName).Err?
            ==> o == Fail(s, InvalidRole(roleName))
    ensures (IsLiveOrg(s, orgId) && IsMember(s, orgId, requester) && RoleFromStr(roleName).Ok?
             && !AddGuardsPass(s, orgId, requester, roleName, asWritten))
            ==> o == Fail(s, InsufficientPermissions)
    ensures AddGuardsPass(s, orgId, requester, roleName, asWritten) && Auth.NewEmail(rawEmail).Err?
            ==> o == Fail(s, UserNotFound)
    ensures (AddGuardsPass(s, orgId, requester, roleName, asWritten) && Auth.NewEmail(rawEmail).Ok?
             && FindUserByEmail(s.users, Auth.NewEmail(rawEmail).value).None?)
            ==> o == Fail(s, UserNotFound)
    ensures (AddGuardsPass(s, orgId, requester, roleName, asWritten) && Auth.NewEmail(rawEmail).Ok?
             && FindUserByEmail(s.users, Auth.NewEmail(rawEmail).value).Some?
             && IsMember(s, orgId, FindUserByEmail(s.users, Auth.NewEmail(rawEmail).value).value.id))
            ==> o == Fail(s, AlreadyMember)
    ensures o.result.Err? ==> o.store == s
    ensures o.result.Ok? ==>
      var m := o.result.value;
      && AddGuardsPass(s, orgId, requester, roleName, asWritten)
      && Auth.NewEmail(rawEmail).Ok?
      && FindUserByEmail(s.users, Auth.NewEmail(rawEmail).value).Some?
      && m.userId == FindUserByEmail(s.users, Auth.NewEmail(rawEmail).value).value.id
      && !IsMember(s, orgId, m.userId)
      && m.organizationId == orgId && m.role == RoleFromStr(roleName).value && m.lastAccessedAt.None?
      && o.store.members == s.members[(orgId, m.userId) := m]
      && o.store.orgs == s.orgs && o.store.invites == s.invites
    ensures KeepsOwners(s, o.store)
  {
    if !IsLiveOrg(s, orgId) then Fail(s, OrgNotFound)
    else if !IsMember(s, orgId, requester) then Fail(s, NotOrgMember)
    else
      var requesterRole := RoleOf(s, orgId, requester);
      match RoleFromStr(roleName)
      case Err(e) => Fail(s, e)
      case Ok(role) =>
        if !CanManageMembers(requesterRole) then Fail(s, InsufficientPermissions)
        else if AddNeedsAdminRights(role, asWritten) && !CanManageAdmins(requesterRole) then Fail(s, InsufficientPermissions)
        else match Auth.NewEmail(rawEmail)
          case Err(_) => Fail(s, UserNotFound)
          case Ok(email) =>
            match FindUserByEmail(s.users, email)
            case None => Fail(s, UserNotFound)
            case Some(user) =>
              if IsMember(s, orgId, user.id) then Fail(s, AlreadyMember)
              else
                var m := NewMember(memberId, orgId, user.id, role, now);
                SaveKeepsOwners(s, (orgId, user.id), m);
                var s' := s.(members := s.members[(orgId, user.id) := m]);
                Done(Logged(s', activityId, orgId, MemberAdded, requester, Some(user.id), None, now), m)
  }

  /** `add_member` as the source writes it. */
  function AddMemberAsWritten(s: OrgStore, orgId: string, requester: string, rawEmail: string, roleName: string,
                              memberId: string, activityId: string, now: int): Outcome<OrgMember>
  {
    AddMemberWith(s, orgId, requester, rawEmail, roleName, memberId, activityId, now, true)
  }

  /** `add_member` with the admin-rights check covering the Owner role too. */
  function AddMember(s: OrgStore, orgId: string, requester: string, rawEmail: string, roleName: string,
                     memberId: string, activityId: string, now: int): (o: Outcome<OrgMember>)
    ensures o.result.Ok? ==>
      && IsMember(s, orgId, requester)
      && CanManageMembers(RoleOf(s, orgId, requester))
      && (RoleRank(o.result.value.role) > RoleRank(Member) ==> RoleOf(s, orgId, requester) == Owner)
    ensures o.result.Err? ==> o.store == s
  {
    AddMemberWith(s, orgId, requester, rawEmail, roleName, memberId, activityId, now, false)
  }

  /** Who may add whom. As written, an added Admin needs an Owner requester;
      corrected, so does an added Owner, and then a new Owner or Admin always
      comes from an Owner. */
  lemma AddMemberPermissions(s: OrgStore, orgId: string, requester: string, rawEmail: string, roleName: string,
                             memberId: string, activityId: string, now: int)
    ensures var o := AddMemberAsWritten(s, orgId, requester, rawEmail, roleName, memberId, activityId, now);
      o.result.Ok? ==>
        && CanManageMembers(RoleOf(s, orgId, requester))
        && (o.result.value.role == Admin ==> RoleOf(s, orgId, requester) == Owner)
    ensures var o := AddMember(s, orgId, requester, rawEmail, roleName, memberId, activityId, now);
      o.result.Ok? ==>
        && CanManageMembers(RoleOf(s, orgId, requester))
        && (RoleRank(o.result.value.role) > RoleRank(Member) ==> RoleOf(s, orgId, requester) == Owner)
  {
  }

  /** A store where "a" is an Admin of "o" and "test@example.com" belongs to
      the user "b", who is not yet a member. */
  function AdminOnlyStore(): OrgStore {
    OrgStore(
      map["o" := Organization("o", "Org", "org-x7k2", false, 0, 0, None)],
      map[("o", "a") := OrgMember("ma", "o", "a", Admin, None, 0, 0)],
      [Account("b", "test@example.com", true)],
      map[], [])
  }

  /** As written, any Admin adds any known non-member as an Owner; the
      corrected rule refuses the same request. */
  lemma AdminAddsOwner(s: OrgStore, orgId: string, admin: string, rawEmail: string, user: Account,
                       memberId: string, activityId: string, now: int)
    requires IsLiveOrg(s, orgId) && IsMember(s, orgId, admin) && RoleOf(s, orgId, admin) == Admin
    requires Auth.NewEmail(rawEmail).Ok? && FindUserByEmail(s.users, Auth.NewEmail(rawEmail).value) == Some(user)
    requires !IsMember(s, orgId, user.id)
    ensures var o := AddMemberAsWritten(s, orgId, admin, rawEmail, "owner", memberId, activityId, now);
      o.result.Ok? && o.result.value.role == Owner && RoleOf(o.store, orgId, user.id) == Owner
    ensures AddMember(s, orgId, admin, rawEmail, "owner", memberId, activityId, now) == Fail(s, InsufficientPermissions)
  {
    RoleExamples();
    assert AddGuardsPass(s, orgId, admin, "owner", true);
    assert !AddGuardsPass(s, orgId, admin, "owner", false);
  }

  /** The request is possible: in that store the Admin "a" adds "b" as an Owner. */
  lemma AdminCanAddOwner()
    ensures var o := AddMemberAsWritten(AdminOnlyStore(), "o", "a", "test@example.com", "owner", "mb", "act", 1);
      o.result.Ok? && RoleOf(o.store, "o", "b") == Owner
  {
    AdminStoreFacts();
    AdminAddsOwner(AdminOnlyStore(), "o", "a", "test@example.com", Account("b", "test@example.com", true), "mb", "act", 1);
  }

  lemma AdminStoreFacts()
    ensures IsLiveOrg(AdminOnlyStore(), "o") && IsMember(AdminOnlyStore(), "o", "a")
    ensures RoleOf(AdminOnlyStore(), "o", "a") == Admin && !IsMember(AdminOnlyStore(), "o", "b")
    ensures Auth.NewEmail("test@example.com") == Ok("test@example.com")
    ensures FindUserByEmail(AdminOnlyStore().users, "test@example.com") == Some(Account("b", "test@example.com", true))
  {
    Auth.EmailAccepted();
  }

  // ---------------------------------------------------------------------------
  // changing a role

  /** The checks `update_member_role` makes before it reads the new role: the
      requester is an Owner and the target is a member. */
  predicate MayChangeRole(s: OrgStore, orgId: string, requester: string, target: string) {
    && IsMember(s, orgId, requester) && CanManageAdmins(RoleOf(s, orgId, requester))
    && IsMember(s, orgId, target)
  }

  /** Demoting the target would leave the organisation without an owner. */
  predicate DemotesLastOwner(s: OrgStore, orgId: string, target: string, role: OrgRole)
    requires IsMember(s, orgId, target)
  {
    RoleOf(s, orgId, target) == Owner && role != Owner && OwnerCount(s, orgId) <= 1
  }

  /** `update_member_role`. The target's account is looked up only after the
      new role has been saved, so `UserNotFound` comes with the change made. */
  function UpdateMemberRole(s: OrgStore, orgId: string, requester: string, target: string, roleName: string,
                            activityId: string, now: int): (o: Outcome<OrgMember>)
    ensures !IsMember(s, orgId, requester) ==> o == Fail(s, NotOrgMember)
    ensures IsMember(s, orgId, requester) && !CanManageAdmins(RoleOf(s, orgId, requester))
            ==> o == Fail(s, InsufficientPermissions)
    ensures (IsMember(s, orgId, requester) && CanManageAdmins(RoleOf(s, orgId, requester))
             && !IsMember(s, orgId, target))
            ==> o == Fail(s, NotOrgMember)
    ensures MayChangeRole(s, orgId, requester, target) && RoleFromStr(roleName).Err?
            ==> o == Fail(s, InvalidRole(roleName))
    ensures (MayChangeRole(s, orgId, requester, target) && RoleFromStr(roleName).Ok?
             && DemotesLastOwner(s, orgId, target, RoleFromStr(roleName).value))
            ==> o == Fail(s, CannotDemoteLastOwner)
    ensures o.result.Err? && o.result.error != UserNotFound ==> o.store == s
    ensures o.result.Ok? || o.result == Err(UserNotFound) ==>
      && MayChangeRole(s, orgId, requester, target) && RoleFromStr(roleName).Ok?
      && !DemotesLastOwner(s, orgId, target, RoleFromStr(roleName).value)
      && o.store.members == s.members[(orgId, target) := UpdateRole(s.members[(orgId, target)], RoleFromStr(roleName).value, now)]
      && o.store.orgs == s.orgs && o.store.invites == s.invites
    ensures o.result == Err(UserNotFound) <==> o.result.Err? && o.store != s
    ensures o.result.Ok? ==> o.result.value == o.store.members[(orgId, target)]
    ensures KeepsOwners(s, o.store)
  {
    if !IsMember(s, orgId, requester) then Fail(s, NotOrgMember)
    else if !CanManageAdmins(RoleOf(s, orgId, requester)) then Fail(s, InsufficientPermissions)
    else if !IsMember(s, orgId, target) then Fail(s, NotOrgMember)
    else match RoleFromStr(roleName)
      case Err(e) => Fail(s, e)
      case Ok(role) =>
        if DemotesLastOwner(s, orgId, target, role) then Fail(s, CannotDemoteLastOwner)
        else
          var before := s.members[(orgId, target)];
          var m := UpdateRole(before, role, now);
          SaveKeepsOwners(s, (orgId, target), m);
          var s' := s.(members := s.members[(orgId, target) := m]);
          var s'' := Logged(s', activityId, orgId, MemberRoleChanged, requester, Some(target), Some(RoleChange(before.role, role)), now);
          assert s'' != s by { assert |s''.activities| != |s.activities|; }
          if FindUserById(s.users, target).None? then Fail(s'', UserNotFound) else Done(s'', m)
  }

  // ---------------------------------------------------------------------------
  // removing a member and leaving

  /** The removal matrix: an Owner may remove anyone, an Admin only a Member. */
  predicate MayRemove(requester: OrgRole, target: OrgRole) {
    match (requester, target)
    case (Owner, _) => true
    case (Admin, Member) => true
    case _ => false
  }

  /** The matrix in terms of rank: an Owner removes anyone, anyone else only
      those ranked strictly below; and only a role that manages members
      removes at all. */
  lemma RemovalMatrix(requester: OrgRole, target: OrgRole)
    ensures MayRemove(requester, target) <==> requester == Owner || RoleRank(target) < RoleRank(requester)
    ensures MayRemove(requester, target) ==> CanManageMembers(requester)
    ensures MayRemove(requester, target) && target != Member ==> CanManageAdmins(requester)
  {
  }

  /** `remove_member`: both must be members, the matrix must allow it, and an
      Owner is removed only while another owner remains. */
  function RemoveMember(s: OrgStore, orgId: string, requester: string, target: string,
                        activityId: string, now: int): (o: Outcome<()>)
    ensures !IsMember(s, orgId, requester) ==> o == Fail(s, NotOrgMember)
    ensures IsMember(s, orgId, requester) && !IsMember(s, orgId, target) ==> o == Fail(s, NotOrgMember)
    ensures (IsMember(s, orgId, requester) && IsMember(s, orgId, target)
             && !MayRemove(RoleOf(s, orgId, requester), RoleOf(s, orgId, target)))
            ==> o == Fail(s, InsufficientPermissions)
    ensures (IsMember(s, orgId, requester) && IsMember(s, orgId, target)
             && MayRemove(RoleOf(s, orgId, requester), RoleOf(s, orgId, target))
             && RoleOf(s, orgId, target) == Owner && OwnerCount(s, orgId) <= 1)
            ==> o == Fail(s, CannotRemoveLastOwner)
    ensures o.result.Err? ==> o.store == s
    ensures o.result.Ok? ==>
      && IsMember(s, orgId, requester) && IsMember(s, orgId, target)
      && MayRemove(RoleOf(s, orgId, requester), RoleOf(s, orgId, target))
      && (RoleOf(s, orgId, target) == Owner ==> OwnerCount(s, orgId) > 1)
      && o.store.members == s.members - {(orgId, target)}
      && o.store.orgs == s.orgs && o.store.invites == s.invites
      && o.store.activities == s.activities + [OrgActivity(activityId, orgId, MemberRemoved, requester, Some(target), None, now)]
    ensures KeepsOwners(s, o.store)
  {
    if !IsMember(s, orgId, requester) then Fail(s, NotOrgMember)
    else if !IsMember(s, orgId, target) then Fail(s, NotOrgMember)
    else
      var targetRole := RoleOf(s, orgId, target);
      if !MayRemove(RoleOf(s, orgId, requester), targetRole) then Fail(s, InsufficientPermissions)
      else if targetRole == Owner && OwnerCount(s, orgId) <= 1 then Fail(s, CannotRemoveLastOwner)
      else
        DeleteKeepsOwners(s, (orgId, target));
        var s' := s.(members := s.members - {(orgId, target)});
        Done(Logged(s', activityId, orgId, MemberRemoved, requester, Some(target), None, now), ())
  }

  /** `leave_org`: any member may leave, an Owner only while another owner
      remains; the record names the leaver as actor and target. */
  function LeaveOrg(s: OrgStore, orgId: string, userId: string, activityId: string, now: int): (o: Outcome<()>)
    ensures !IsMember(s, orgId, userId) ==> o == Fail(s, NotOrgMember)
    ensures IsMember(s, orgId, userId) && RoleOf(s, orgId, userId) == Owner && OwnerCount(s, orgId) <= 1
            ==> o == Fail(s, CannotLeaveAsLastOwner)
    ensures o.result.Err? ==> o.store == s
    ensures o.result.Ok? <==> IsMember(s, orgId, userId) && (RoleOf(s, orgId, userId) == Owner ==> OwnerCount(s, orgId) > 1)
    ensures o.result.Ok? ==>
      && o.store.members == s.members - {(orgId, userId)}
      && o.store.orgs == s.orgs && o.store.invites == s.invites
      && o.store.activities
         == s.activities + [OrgActivity(activityId, orgId, MemberRemoved, userId, Some(userId), Some(map["reason" := "left"]), now)]
    ensures KeepsOwners(s, o.store)
  {
    if !IsMember(s, orgId, userId) then Fail(s, NotOrgMember)
    else if RoleOf(s, orgId, userId) == Owner && OwnerCount(s, orgId) <= 1 then Fail(s, CannotLeaveAsLastOwner)
    else
      DeleteKeepsOwners(s, (orgId, userId));
      var s' := s.(members := s.members - {(orgId, userId)});
      Done(Logged(s', activityId, orgId, MemberRemoved, userId, Some(userId), Some(map["reason" := "left"]), now), ())
  }

  // ---------------------------------------------------------------------------
  // ownership transfer

  /** The checks `transfer_ownership` makes before it writes: the requester is
      an Owner and the new owner is a member. */
  predicate MayTransfer(s: OrgStore, orgId: string, requester: string, newOwner: string) {
    IsMember(s, orgId, requester) && RoleOf(s, orgId, requester) == Owner && IsMember(s, orgId, newOwner)
  }

  /** The memberships a transfer saves: the new owner is promoted, then the
      requester's membership, as read before the promotion, is saved as Admin.
      As written this happens also when both are the same user, and the
      demotion overwrites the promotion; corrected, a transfer to oneself
      leaves the requester an Owner. */
  function TransferredMembers(s: OrgStore, orgId: string, requester: string, newOwner: string,
                              now: int, asWritten: bool): map<MemberKey, OrgMember>
    requires MayTransfer(s, orgId, requester, newOwner)
  {
    var promoted := s.members[(orgId, newOwner) := UpdateRole(s.members[(orgId, newOwner)], Owner, now)];
    if !asWritten && newOwner == requester then promoted
    else promoted[(orgId, requester) := UpdateRole(s.members[(orgId, requester)], Admin, now)]
  }

  /** `transfer_ownership`, with the self-transfer rule chosen by `asWritten`.
      The organisation and the requester's account are looked up only after
      both memberships are saved, so `OrgNotFound` and `UserNotFound` come with
      the roles already changed; a deleted organisation is not refused. The
      result is the organisation with the requester's role after the
      transfer. */
  function TransferOwnershipWith(s: OrgStore, orgId: string, requester: string, newOwner: string,
                                 promoteId: string, demoteId: string, now: int, asWritten: bool)
    : (o: Outcome<(Organization, OrgRole)>)
    ensures !IsMember(s, orgId, requester) ==> o == Fail(s, NotOrgMember)
    ensures IsMember(s, orgId, requester) && RoleOf(s, orgId, requester) != Owner ==> o == Fail(s, InsufficientPermissions)
    ensures (IsMember(s, orgId, requester) && RoleOf(s, orgId, requester) == Owner && !IsMember(s, orgId, newOwner))
            ==> o == Fail(s, NotOrgMember)
    ensures MayTransfer(s, orgId, requester, newOwner) ==>
      && o.store.members == TransferredMembers(s, orgId, requester, newOwner, now, asWritten)
      && o.store.orgs == s.orgs && o.store.invites == s.invites
      && (orgId !in s.orgs ==> o.result == Err(OrgNotFound))
      && (orgId in s.orgs && FindUserById(s.users, requester).None? ==> o.result == Err(UserNotFound))
      && (orgId in s.orgs && FindUserById(s.users, requester).Some?
          ==> o.result == Ok((s.orgs[orgId], RoleOf(o.store, orgId, requester))))
    ensures MayTransfer(s, orgId, requester, newOwner) && newOwner != requester ==>
      RoleOf(o.store, orgId, newOwner) == Owner && RoleOf(o.store, orgId, requester) == Admin
    ensures MayTransfer(s, orgId, requester, newOwner) && !asWritten ==> RoleOf(o.store, orgId, newOwner) == Owner
  {
    if !IsMember(s, orgId, requester) then Fail(s, NotOrgMember)
    else if RoleOf(s, orgId, requester) != Owner then Fail(s, InsufficientPermissions)
    else if !IsMember(s, orgId, newOwner) then Fail(s, NotOrgMember)
    else
      var previous := RoleOf(s, orgId, newOwner);
      var s1 := s.(members := TransferredMembers(s, orgId, requester, newOwner, now, asWritten));
      var s2 := Logged(s1, promoteId, orgId, MemberRoleChanged, requester, Some(newOwner), Some(RoleChange(previous, Owner)), now);
      var s3 := if !asWritten && newOwner == requester then s2
                else Logged(s2, demoteId, orgId, MemberRoleChanged, requester, Some(requester), Some(RoleChange(Owner, Admin)), now);
      if orgId !in s.orgs then Fail(s3, OrgNotFound)
      else if FindUserById(s.users, requester).None? then Fail(s3, UserNotFound)
      else Done(s3, (s.orgs[orgId], RoleOf(s3, orgId, requester)))
  }

  /** `transfer_ownership` as the source writes it. */
  function TransferOwnershipAsWritten(s: OrgStore, orgId: string, requester: string, newOwner: string,
                                      promoteId: string, demoteId: string, now: int): Outcome<(Organization, OrgRole)>
  {
    TransferOwnershipWith(s, orgId, requester, newOwner, promoteId, demoteId, now, true)
  }

  /** `transfer_ownership` with a transfer to oneself changing no role. */
  function TransferOwnership(s: OrgStore, orgId: string, requester: string, newOwner: string,
                             promoteId: string, demoteId: string, now: int): (o: Outcome<(Organization, OrgRole)>)
    ensures KeepsOwners(s, o.store)
    ensures MayTransfer(s, orgId, requester, newOwner) ==> IsMember(o.store, orgId, newOwner) && RoleOf(o.store, orgId, newOwner) == Owner
    ensures !MayTransfer(s, orgId, requester, newOwner) ==> o.store == s && o.result.Err?
  {
    TransferKeepsOwners(s, orgId, requester, newOwner, promoteId, demoteId, now);
    TransferOwnershipWith(s, orgId, requester, newOwner, promoteId, demoteId, now, false)
  }

  /** As written, an Owner who transfers to themselves ends as an Admin, and
      when they were the only owner the organisation is left with none. */
  lemma SelfTransferDemotesLastOwner(s: OrgStore, orgId: string, owner: string, promoteId: string, demoteId: string, now: int)
    requires MayTransfer(s, orgId, owner, owner)
    ensures var o := TransferOwnershipAsWritten(s, orgId, owner, owner, promoteId, demoteId, now);
      && RoleOf(o.store, orgId, owner) == Admin
      && (OwnerCount(s, orgId) == 1 ==> OwnerCount(o.store, orgId) == 0)
  {
    var o := TransferOwnershipAsWritten(s, orgId, owner, owner, promoteId, demoteId, now);
    var k := (orgId, owner);
    var promoted := s.members[k := UpdateRole(s.members[k], Owner, now)];
    assert o.store.members == promoted[k := UpdateRole(s.members[k], Admin, now)];
    assert o.store.members == s.members[k := UpdateRole(s.members[k], Admin, now)];
    OwnersAfterSave(s.members, k, UpdateRole(s.members[k], Admin, now), orgId);
    var before := Owners(s.members, orgId);
    assert k in before;
    assert |before - {k}| == |before| - 1;
  }

  /** A store whose organisation "o" has the single owner "u". */
  function SingleOwnerStore(): OrgStore {
    OrgStore(
      map["o" := Organization("o", "Org", "org-x7k2", false, 0, 0, None)],
      map[("o", "u") := OrgMember("mu", "o", "u", Owner, None, 0, 0)],
      [Account("u", "test@example.com", true)],
      map[], [])
  }

  /** The case happens: "u" transfers "o" to themselves and "o" has no owner left. */
  lemma SelfTransferLeavesNoOwner()
    ensures OwnerCount(SingleOwnerStore(), "o") == 1
    ensures OwnerCount(TransferOwnershipAsWritten(SingleOwnerStore(), "o", "u", "u", "a1", "a2", 1).store, "o") == 0
  {
    var s := SingleOwnerStore();
    assert Owners(s.members, "o") == {("o", "u")};
    SelfTransferDemotesLastOwner(s, "o", "u", "a1", "a2", 1);
  }

  /** Corrected, a transfer never leaves an organisation without an owner:
      the new owner is an Owner afterwards, whoever they are. */
  lemma TransferKeepsOwners(s: OrgStore, orgId: string, requester: string, newOwner: string,
                            promoteId: string, demoteId: string, now: int)
    ensures KeepsOwners(s, TransferOwnershipWith(s, orgId, requester, newOwner, promoteId, demoteId, now, false).store)
  {
    var o := TransferOwnershipWith(s, orgId, requester, newOwner, promoteId, demoteId, now, false);
    if MayTransfer(s, orgId, requester, newOwner) {
      var kn := (orgId, newOwner);
      var kr := (orgId, requester);
      var promoted := s.members[kn := UpdateRole(s.members[kn], Owner, now)];
      forall other | OwnerCount(s, other) >= 1
        ensures OwnerCount(o.store, other) >= 1
      {
        if other == orgId {
          assert kn in Owners(o.store.members, orgId);
        } else {
          OwnersAfterSave(s.members, kn, UpdateRole(s.members[kn], Owner, now), other);
          assert Owners(promoted, other) == Owners(s.members, other);
          if newOwner != requester {
            OwnersAfterSave(promoted, kr, UpdateRole(s.members[kr], Admin, now), other);
            assert Owners(o.store.members, other) == Owners(promoted, other);
          }
        }
      }
    }
  }

  // ---------------------------------------------------------------------------
  // switching organisation

  /** `switch_org`: the organisation must be live and the user a member; the
      membership is marked as accessed now before the account is looked up,
      so `UserNotFound` comes with that write made. */
  function SwitchOrg(s: OrgStore, orgId: string, userId: string, now: int): (o: Outcome<(Organization, OrgRole)>)
    ensures !IsLiveOrg(s, orgId) ==> o == Fail(s, OrgNotFound)
    ensures IsLiveOrg(s, orgId) && !IsMember(s, orgId, userId) ==> o == Fail(s, NotOrgMember)
    ensures IsLiveOrg(s, orgId) && IsMember(s, orgId, userId) ==>
      && o.store == s.(members := s.members[(orgId, userId) := TouchLastAccessed(s.members[(orgId, userId)], now)])
      && (o.result.Ok? <==> FindUserById(s.users, userId).Some?)
      && (o.result.Err? ==> o.result.error == UserNotFound)
    ensures o.result.Ok? ==> o.result.value == (s.orgs[orgId], RoleOf(s, orgId, userId))
    ensures KeepsOwners(s, o.store)
  {
    if !IsLiveOrg(s, orgId) then Fail(s, OrgNotFound)
    else if !IsMember(s, orgId, userId) then Fail(s, NotOrgMember)
    else
      var m := TouchLastAccessed(s.members[(orgId, userId)], now);
      SaveKeepsOwners(s, (orgId, userId), m);
      var s' := s.(members := s.members[(orgId, userId) := m]);
      if FindUserById(s.users, userId).None? then Fail(s', UserNotFound)
      else Done(s', (s.orgs[orgId], m.role))
  }

  // ---------------------------------------------------------------------------
  // properties across operations

  /** Every path that reads an organisation first reports a soft-deleted one
      as `OrgNotFound` and writes nothing; deletion alone looks past that and
      reports the repeated deletion. */
  lemma DeletedOrgIsNotFound(s: OrgStore, orgId: string, userId: string, newName: Option<string>, suffix: string,
                             rawEmail: string, roleName: string, memberId: string, activityId: string, now: int)
    requires orgId in s.orgs && IsOrgDeleted(s.orgs[orgId])
    ensures GetOrg(s, orgId, userId) == Err(OrgNotFound)
    ensures UpdateOrg(s, orgId, userId, newName, suffix, activityId, now) == Fail(s, OrgNotFound)
    ensures AddMember(s, orgId, userId, rawEmail, roleName, memberId, activityId, now) == Fail(s, OrgNotFound)
    ensures ListMembers(s, orgId, userId) == Err(OrgNotFound)
    ensures SwitchOrg(s, orgId, userId, now) == Fail(s, OrgNotFound)
    ensures IsMember(s, orgId, userId) && RoleOf(s, orgId, userId) == Owner && !s.orgs[orgId].isPersonal
            ==> DeleteOrg(s, orgId, userId, now) == Fail(s, OrgAlreadyDeleted)
  {
  }

  /** The membership commands of the organisation service. */
  datatype MemberCommand =
    | AddCmd(requester: string, email: string, role: string, memberId: string, activityId: string)
    | ChangeRoleCmd(requester: string, target: string, role: string, activityId: string)
    | RemoveCmd(requester: string, target: string, activityId: string)
    | LeaveCmd(user: string, activityId: string)
    | TransferCmd(requester: string, newOwner: string, promoteId: string, demoteId: string)
    | SwitchCmd(user: string)

  /** The store after one command, whether it succeeded or not. */
  function Step(s: OrgStore, orgId: string, c: MemberCommand, now: int): OrgStore {
    match c
    case AddCmd(requester, email, role, memberId, activityId) =>
      AddMember(s, orgId, requester, email, role, memberId, activityId, now).store
    case ChangeRoleCmd(requester, target, role, activityId) =>
      UpdateMemberRole(s, orgId, requester, target, role, activityId, now).store
    case RemoveCmd(requester, target, activityId) => RemoveMember(s, orgId, requester, target, activityId, now).store
    case LeaveCmd(user, activityId) => LeaveOrg(s, orgId, user, activityId, now).store
    case TransferCmd(requester, newOwner, promoteId, demoteId) =>
      TransferOwnership(s, orgId, requester, newOwner, promoteId, demoteId, now).store
    case SwitchCmd(user) => SwitchOrg(s, orgId, user, now).store
  }

  function Run(s: OrgStore, orgId: string, cmds: seq<MemberCommand>, now: int): OrgStore
    decreases |cmds|
  {
    if |cmds| == 0 then s else Run(Step(s, orgId, cmds[0], now), orgId, cmds[1..], now)
  }

  /** The last-owner protection: whatever membership commands run, successful
      or not, no organisation that had an owner ends up without one. */
  lemma {:induction false} OwnersSurvive(s: OrgStore, orgId: string, cmds: seq<MemberCommand>, now: int)
    ensures KeepsOwners(s, Run(s, orgId, cmds, now))
    decreases |cmds|
  {
    if |cmds| > 0 {
      var s1 := Step(s, orgId, cmds[0], now);
      if cmds[0].TransferCmd? {
        var c := cmds[0];
        TransferKeepsOwners(s, orgId, c.requester, c.newOwner, c.promoteId, c.demoteId, now);
      }
      OwnersSurvive(s1, orgId, cmds[1..], now);
    }
  }
}
