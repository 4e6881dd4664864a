/** Entities of the organisations module: the organisation with its soft
    delete, the membership, the invite with its status transitions and the
    activity record. */
module OrgEntities {
  import opened Wrappers
  import opened OrgValues

  // ---------------------------------------------------------------------------
  // organisation

  datatype Organization = Organization(
    id: string,
    name: string,
    slug: string,
    isPersonal: bool,
    createdAt: int,
    updatedAt: int,
    deletedAt: Option<int>)

  predicate IsOrgDeleted(o: Organization) { o.deletedAt.Some? }

  /** `Organization::new`: a shared (non-personal) organisation, not deleted. */
  function NewOrganization(id: string, name: string, slug: string, now: int): (o: Organization)
    ensures !o.isPersonal && !IsOrgDeleted(o) && o.createdAt == o.updatedAt == now
    ensures o.id == id && o.name == name && o.slug == slug
  {
    Organization(id, name, slug, false, now, now, None)
  }

  /** `Organization::new_personal`: a personal organisation, not deleted. */
  function NewPersonalOrganization(id: string, name: string, slug: string, now: int): (o: Organization)
    ensures o.isPersonal && !IsOrgDeleted(o) && o.createdAt == o.updatedAt == now
    ensures o.id == id && o.name == name && o.slug == slug
  {
    Organization(id, name, slug, true, now, now, None)
  }

  /** `update_name`: name and slug are replaced together; the identity, the
      personal flag and the deletion state never change. */
  function UpdateOrgName(o: Organization, name: string, slug: string, now: int): (o': Organization)
    ensures o'.name == name && o'.slug == slug && o'.updatedAt == now
    ensures o'.id == o.id && o'.isPersonal == o.isPersonal
    ensures o'.createdAt == o.createdAt && o'.deletedAt == o.deletedAt
  {
    o.(name := name, slug := slug, updatedAt := now)
  }

  /** `soft_delete`: a personal organisation can never be deleted, and this is
      checked before the already-deleted case; otherwise the first call stamps
      the deletion time and every later call fails. */
  function SoftDeleteOrg(o: Organization, now: int): (r: Result<Organization, OrgError>)
    ensures o.isPersonal ==> r == Err(CannotDeletePersonalOrg)
    ensures !o.isPersonal && IsOrgDeleted(o) ==> r == Err(OrgAlreadyDeleted)
    ensures r.Ok? <==> !o.isPersonal && !IsOrgDeleted(o)
    ensures r.Ok? ==> r.value == o.(deletedAt := Some(now), updatedAt := now) && IsOrgDeleted(r.value)
  {
    if o.isPersonal then Err(CannotDeletePersonalOrg)
    else if IsOrgDeleted(o) then Err(OrgAlreadyDeleted)
    else Ok(o.(deletedAt := Some(now), updatedAt := now))
  }

  /** A second soft delete always fails, and a personal organisation is never deleted. */
  lemma SecondOrgDeleteFails(o: Organization, t1: int, t2: int)
    requires SoftDeleteOrg(o, t1).Ok?
    ensures SoftDeleteOrg(SoftDeleteOrg(o, t1).value, t2) == Err(OrgAlreadyDeleted)
    ensures SoftDeleteOrg(NewPersonalOrganization(o.id, o.name, o.slug, t1), t2) == Err(CannotDeletePersonalOrg)
  {
  }

  // ---------------------------------------------------------------------------
  // membership

  datatype OrgMember = OrgMember(
    id: string,
    organizationId: string,
    userId: string,
    role: OrgRole,
    lastAccessedAt: Option<int>,
    createdAt: int,
    updatedAt: int)

  /** `OrganizationMember::new`: never accessed, created and updated now. */
  function NewMember(id: string, organizationId: string, userId: string, role: OrgRole, now: int): (m: OrgMember)
    ensures m.lastAccessedAt.None? && m.createdAt == m.updatedAt == now
    ensures m.id == id && m.organizationId == organizationId && m.userId == userId && m.role == role
  {
    OrgMember(id, organizationId, userId, role, None, now, now)
  }

  /** `update_role`: only the role and the update time change. */
  function UpdateRole(m: OrgMember, role: OrgRole, now: int): (m': OrgMember)
    ensures m'.role == role && m'.updatedAt == now
    ensures m'.(role := m.role, updatedAt := m.updatedAt) == m
  {
    m.(role := role, updatedAt := now)
  }

  /** `touch_last_accessed`: the access time becomes now. */
  function TouchLastAccessed(m: OrgMember, now: int): (m': OrgMember)
    ensures m'.lastAccessedAt == Some(now) && m'.updatedAt == now
    ensures m'.(lastAccessedAt := m.lastAccessedAt, updatedAt := m.updatedAt) == m
  {
    m.(lastAccessedAt := Some(now), updatedAt := now)
  }

  /** The two mutators a membership has. */
  datatype MemberChange = SetRole(role: OrgRole, at: int) | Touch(at: int)

  function ApplyMemberChanges(m: OrgMember, changes: seq<MemberChange>): OrgMember
    decreases |changes|
  {
    if |changes| == 0 then m
    else
      var m' := match changes[0]
        case SetRole(role, at) => UpdateRole(m, role, at)
        case Touch(at) => TouchLastAccessed(m, at);
      ApplyMemberChanges(m', changes[1..])
  }

  /** Whatever mutators run, a membership keeps its id, organisation, user and
      creation time. */
  lemma {:induction false} MemberIdentityIsFixed(m: OrgMember, changes: seq<MemberChange>)
    ensures var m' := ApplyMemberChanges(m, changes);
      m'.id == m.id && m'.organizationId == m.organizationId && m'.userId == m.userId
      && m'.createdAt == m.createdAt
    decreases |changes|
  {
    if |changes| > 0 {
      var m' := match changes[0]
        case SetRole(role, at) => UpdateRole(m, role, at)
        case Touch(at) => TouchLastAccessed(m, at);
      MemberIdentityIsFixed(m', changes[1..]);
    }
  }

  // ---------------------------------------------------------------------------
  // invite

  datatype OrgInvite = OrgInvite(
    id: string,
    organizationId: string,
    inviterId: string,
    inviteeEmail: string,
    inviteeId: Option<string>,
    role: OrgRole,
    status: InviteStatus,
    expiresAt: int,
    createdAt: int,
    updatedAt: int)

  /** `OrganizationInvite::new`: Pending, created and updated now. */
  function NewInvite(id: string, organizationId: string, inviterId: string, inviteeEmail: string,
                     inviteeId: Option<string>, role: OrgRole, expiresAt: int, now: int): (v: OrgInvite)
    ensures v.status == Pending && v.createdAt == v.updatedAt == now && v.expiresAt == expiresAt
    ensures v.id == id && v.organizationId == organizationId && v.inviterId == inviterId
    ensures v.inviteeEmail == inviteeEmail && v.inviteeId == inviteeId && v.role == role
  {
    OrgInvite(id, organizationId, inviterId, inviteeEmail, inviteeId, role, Pending, expiresAt, now, now)
  }

  /** `is_expired`: strictly after the expiry instant. */
  predicate InviteIsExpired(v: OrgInvite, now: int) {
    now > v.expiresAt
  }

  /** An invite is still usable at its expiry instant and stays expired afterwards. */
  lemma InviteExpiryIsMonotone(v: OrgInvite, now: int, later: int)
    requires now <= later
    ensures !InviteIsExpired(v, v.expiresAt)
    ensures InviteIsExpired(v, now) ==> InviteIsExpired(v, later)
  {
  }

  /** `accept`: Accepted, whatever the status was. */
  function AcceptInvite(v: OrgInvite, now: int): (v': OrgInvite)
    ensures v'.status == Accepted && v'.updatedAt == now
    ensures v'.(status := v.status, updatedAt := v.updatedAt) == v
  {
    v.(status := Accepted, updatedAt := now)
  }

  /** `decline`: Declined, whatever the status was. */
  function DeclineInvite(v: OrgInvite, now: int): (v': OrgInvite)
    ensures v'.status == Declined && v'.updatedAt == now
    ensures v'.(status := v.status, updatedAt := v.updatedAt) == v
  {
    v.(status := Declined, updatedAt := now)
  }

  /** `mark_expired`: Expired, whatever the status was. */
  function MarkInviteExpired(v: OrgInvite, now: int): (v': OrgInvite)
    ensures v'.status == Expired && v'.updatedAt == now
    ensures v'.(status := v.status, updatedAt := v.updatedAt) == v
  {
    v.(status := Expired, updatedAt := now)
  }

  /** The transitions do not look at the prior status: applied to a processed
      invite they overwrite it, and the last one applied wins. */
  lemma TransitionsIgnorePriorStatus(v: OrgInvite, t1: int, t2: int)
    ensures DeclineInvite(AcceptInvite(v, t1), t2) == DeclineInvite(v, t2)
    ensures AcceptInvite(MarkInviteExpired(v, t1), t2) == AcceptInvite(v, t2)
    ensures MarkInviteExpired(DeclineInvite(v, t1), t2) == MarkInviteExpired(v, t2)
  {
  }

  // ---------------------------------------------------------------------------
  // activity

  datatype OrgActivity = OrgActivity(
    id: string,
    organizationId: string,
    activityType: ActivityType,
    actorId: string,
    targetId: Option<string>,
    metadata: Option<map<string, string>>,
    createdAt: int)
}
