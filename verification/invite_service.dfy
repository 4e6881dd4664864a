/** The invite service over the organisation store: sending an invite,
    accepting, declining and cancelling it. The id generator and the clock are
    parameters. */
module InviteService {
  import opened Wrappers
  import opened OrgValues
  import opened OrgEntities
  import opened OrgService
  import Auth

  /** Seven days, in nanoseconds: how long a new invite stays usable. */
  const InviteLifetime: int := 7 * 24 * 60 * 60 * 1_000_000_000

  /** `find_pending_by_org_and_email`: a Pending invite to that address for that organisation. */
  predicate HasPendingInvite(s: OrgStore, orgId: string, email: string) {
    exists id :: id in s.invites && s.invites[id].organizationId == orgId
      && s.invites[id].inviteeEmail == email && s.invites[id].status == Pending
  }

  // ---------------------------------------------------------------------------
  // sending

  /** The checks `send_invite` makes on the inviter and the role, in its order:
      the organisation exists (a deleted one is not refused), the inviter is a
      member who may manage members, the role is readable and is not Owner. */
  predicate SendGuardsPass(s: OrgStore, orgId: string, inviterId: string, roleName: string) {
    && orgId in s.orgs && IsMember(s, orgId, inviterId)
    && CanManageMembers(RoleOf(s, orgId, inviterId))
    && RoleFromStr(roleName).Ok? && RoleFromStr(roleName).value != Owner
  }

  /** The checks on the invitee, once the address is readable and the inviter's
      account is known: not the inviter's own address; when the address
      belongs to a user, that user accepts invites and is not yet a member;
      and no Pending invite to the address exists for the organisation. */
  predicate InviteeGuardsPass(s: OrgStore, orgId: string, inviter: Account, email: string) {
    && inviter.email != email
    && (FindUserByEmail(s.users, email).Some? ==>
          FindUserByEmail(s.users, email).value.allowInvites
          && !IsMember(s, orgId, FindUserByEmail(s.users, email).value.id))
    && !HasPendingInvite(s, orgId, email)
  }

  /** `send_invite`. An unreadable address is an internal error. The new
      invite is Pending, expires seven days after `now`, carries the
      normalised address and, when the address belongs to a user, that user's
      id. */
  function SendInvite(s: OrgStore, orgId: string, inviterId: string, rawEmail: string, roleName: string,
                      inviteId: string, activityId: string, now: int): (o: Outcome<OrgInvite>)
    ensures orgId !in s.orgs ==> o == Fail(s, OrgNotFound)
    ensures orgId in s.orgs && !IsMember(s, orgId, inviterId) ==> o == Fail(s, NotOrgMember)
    ensures (orgId in s.orgs && IsMember(s, orgId, inviterId) && !CanManageMembers(RoleOf(s, orgId, inviterId)))
            ==> o == Fail(s, InsufficientPermissions)
    ensures (orgId in s.orgs && IsMember(s, orgId, inviterId) && CanManageMembers(RoleOf(s, orgId, inviterId))
             && RoleFromStr(roleName) == Ok(Owner))
            ==> o == Fail(s, InsufficientPermissions)
    ensures SendGuardsPass(s, orgId, inviterId, roleName) && Auth.NewEmail(rawEmail).Err? ==> o == Fail(s, InternalError)
    ensures (SendGuardsPass(s, orgId, inviterId, roleName) && Auth.NewEmail(rawEmail).Ok?
             && FindUserById(s.users, inviterId).None?)
            ==> o == Fail(s, UserNotFound)
    ensures (SendGuardsPass(s, orgId, inviterId, roleName) && Auth.NewEmail(rawEmail).Ok?
             && FindUserById(s.users, inviterId).Some?
             && FindUserById(s.users, inviterId).value.email == Auth.NewEmail(rawEmail).value)
            ==> o == Fail(s, CannotInviteSelf)
    ensures o.result.Err? ==> o.store == s
    ensures o.result.Ok? ==>
      && SendGuardsPass(s, orgId, inviterId, roleName) && Auth.NewEmail(rawEmail).Ok?
      && FindUserById(s.users, inviterId).Some?
    ensures o.result.Ok? && Auth.NewEmail(rawEmail).Ok? && FindUserById(s.users, inviterId).Some? ==>
      var v := o.result.value;
      var email := Auth.NewEmail(rawEmail).value;
      && InviteeGuardsPass(s, orgId, FindUserById(s.users, inviterId).value, email)
      && v.status == Pending && v.expiresAt == now + InviteLifetime && !InviteIsExpired(v, now)
      && v.role == RoleFromStr(roleName).value && v.role != Owner
      && v.organizationId == orgId && v.inviterId == inviterId && v.inviteeEmail == email
      && (v.inviteeId.Some? <==> FindUserByEmail(s.users, email).Some?)
      && (v.inviteeId.Some? ==> v.inviteeId.value == FindUserByEmail(s.users, email).value.id)
      && o.store.invites == s.invites[inviteId := v]
      && o.store.members == s.members && o.store.orgs == s.orgs
  {
    if orgId !in s.orgs then Fail(s, OrgNotFound)
    else if !IsMember(s, orgId, inviterId) then Fail(s, NotOrgMember)
    else if !CanManageMembers(RoleOf(s, orgId, inviterId)) then Fail(s, InsufficientPermissions)
    else match RoleFromStr(roleName)
      case Err(e) => Fail(s, e)
      case Ok(role) =>
        if role == Owner then Fail(s, InsufficientPermissions)
        else match Auth.NewEmail(rawEmail)
          case Err(_) => Fail(s, InternalError)
          case Ok(email) =>
            match FindUserById(s.users, inviterId)
            case None => Fail(s, UserNotFound)
            case Some(inviter) =>
              if inviter.email == email then Fail(s, CannotInviteSelf)
              else
                var invitee := FindUserByEmail(s.users, email);
                if invitee.Some? && !invitee.value.allowInvites then Fail(s, UserDoesNotAllowInvites)
                else if invitee.Some? && IsMember(s, orgId, invitee.value.id) then Fail(s, AlreadyMember)
                else if HasPendingInvite(s, orgId, email) then Fail(s, InviteAlreadyExists)
                else
                  var inviteeId := if invitee.Some? then Some(invitee.value.id) else None;
                  var v := NewInvite(inviteId, orgId, inviterId, email, inviteeId, role, now + InviteLifetime, now);
                  var metadata := map["invitee_email" := email, "role" := RoleName(role)];
                  var s' := s.(invites := s.invites[inviteId := v]);
                  Done(Logged(s', activityId, orgId, InviteSent, inviterId, None, Some(metadata), now), v)
  }

  /** The invitee checks in their order: a user who refuses invites is
      reported before membership, and membership before a pending invite. */
  lemma InviteeRefusals(s: OrgStore, orgId: string, inviterId: string, rawEmail: string, roleName: string,
                        inviteId: string, activityId: string, now: int, invitee: Account)
    requires SendGuardsPass(s, orgId, inviterId, roleName) && Auth.NewEmail(rawEmail).Ok?
    requires FindUserById(s.users, inviterId).Some?
    requires FindUserById(s.users, inviterId).value.email != Auth.NewEmail(rawEmail).value
    requires FindUserByEmail(s.users, Auth.NewEmail(rawEmail).value) == Some(invitee)
    ensures var o := SendInvite(s, orgId, inviterId, rawEmail, roleName, inviteId, activityId, now);
      && (!invitee.allowInvites ==> o == Fail(s, UserDoesNotAllowInvites))
      && (invitee.allowInvites && IsMember(s, orgId, invitee.id) ==> o == Fail(s, AlreadyMember))
      && (invitee.allowInvites && !IsMember(s, orgId, invitee.id) && HasPendingInvite(s, orgId, Auth.NewEmail(rawEmail).value)
          ==> o == Fail(s, InviteAlreadyExists))
  {
  }

  /** Sending twice to the same address for the same organisation: the second
      call finds the first invite pending and fails. */
  lemma SecondSendFails(s: OrgStore, orgId: string, inviterId: string, rawEmail: string, roleName: string,
                        inviteId: string, activityId: string, now: int,
                        inviteId2: string, activityId2: string, later: int)
    requires SendInvite(s, orgId, inviterId, rawEmail, roleName, inviteId, activityId, now).result.Ok?
    ensures var s' := SendInvite(s, orgId, inviterId, rawEmail, roleName, inviteId, activityId, now).store;
      SendInvite(s', orgId, inviterId, rawEmail, roleName, inviteId2, activityId2, later).result.Err?
  {
    var o := SendInvite(s, orgId, inviterId, rawEmail, roleName, inviteId, activityId, now);
    var email := Auth.NewEmail(rawEmail).value;
    assert o.store.invites[inviteId].inviteeEmail == email;
    assert HasPendingInvite(o.store, orgId, email);
  }

  // ---------------------------------------------------------------------------
  // accepting, declining, cancelling

  /** The invite is addressed to this account: by user id or by address. */
  predicate IsAddressedTo(v: OrgInvite, user: Account) {
    v.inviteeId == Some(user.id) || v.inviteeEmail == user.email
  }

  /** The checks accepting and declining share, in their order: the invite
      exists, the account exists, the invite is addressed to it and is still
      Pending. */
  predicate ResponseGuardsPass(s: OrgStore, inviteId: string, userId: string) {
    && inviteId in s.invites && FindUserById(s.users, userId).Some?
    && IsAddressedTo(s.invites[inviteId], FindUserById(s.users, userId).value)
    && s.invites[inviteId].status == Pending
  }

  /** The errors of those shared checks, and the store they leave unchanged. */
  ghost predicate RefusedResponse<T>(s: OrgStore, inviteId: string, userId: string, o: Outcome<T>) {
    && (inviteId !in s.invites ==> o == Fail(s, InviteNotFound))
    && (inviteId in s.invites && FindUserById(s.users, userId).None? ==> o == Fail(s, UserNotFound))
    && (inviteId in s.invites && FindUserById(s.users, userId).Some?
        && !IsAddressedTo(s.invites[inviteId], FindUserById(s.users, userId).value)
        ==> o == Fail(s, InsufficientPermissions))
    && (inviteId in s.invites && FindUserById(s.users, userId).Some?
        && IsAddressedTo(s.invites[inviteId], FindUserById(s.users, userId).value)
        && s.invites[inviteId].status != Pending
        ==> o == Fail(s, InviteAlreadyProcessed))
  }

  /** `accept_invite`. Past its expiry the invite is saved as Expired and
      `InviteExpired` is returned; a user who is already a member gets the
      invite saved as Accepted and `AlreadyMember`; otherwise a membership
      with the invite's role is created and the invite is Accepted. The
      organisation itself is not looked at. */
  function AcceptPendingInvite(s: OrgStore, inviteId: string, userId: string, memberId: string,
                               activityId: string, now: int): (o: Outcome<()>)
    ensures RefusedResponse(s, inviteId, userId, o)
    ensures ResponseGuardsPass(s, inviteId, userId) && InviteIsExpired(s.invites[inviteId], now) ==>
      o == Fail(s.(invites := s.invites[inviteId := MarkInviteExpired(s.invites[inviteId], now)]), InviteExpired)
    ensures (ResponseGuardsPass(s, inviteId, userId) && !InviteIsExpired(s.invites[inviteId], now)
             && IsMember(s, s.invites[inviteId].organizationId, userId))
            ==> o == Fail(s.(invites := s.invites[inviteId := AcceptInvite(s.invites[inviteId], now)]), AlreadyMember)
    ensures o.result.Ok? <==>
      ResponseGuardsPass(s, inviteId, userId) && !InviteIsExpired(s.invites[inviteId], now)
      && !IsMember(s, s.invites[inviteId].organizationId, userId)
    ensures o.result.Ok? ==>
      var v := s.invites[inviteId];
      && o.store.members == s.members[(v.organizationId, userId) := NewMember(memberId, v.organizationId, userId, v.role, now)]
      && o.store.invites == s.invites[inviteId := AcceptInvite(v, now)]
      && o.store.orgs == s.orgs
    ensures o.result.Err? ==> o.store.members == s.members
    ensures KeepsOwners(s, o.store)
  {
    if inviteId !in s.invites then Fail(s, InviteNotFound)
    else match FindUserById(s.users, userId)
      case None => Fail(s, UserNotFound)
      case Some(user) =>
        var v := s.invites[inviteId];
        if !IsAddressedTo(v, user) then Fail(s, InsufficientPermissions)
        else if v.status != Pending then Fail(s, InviteAlreadyProcessed)
        else if InviteIsExpired(v, now) then Fail(s.(invites := s.invites[inviteId := MarkInviteExpired(v, now)]), InviteExpired)
        else if IsMember(s, v.organizationId, user.id) then Fail(s.(invites := s.invites[inviteId := AcceptInvite(v, now)]), AlreadyMember)
        else
          var m := NewMember(memberId, v.organizationId, user.id, v.role, now);
          SaveKeepsOwners(s, (v.organizationId, user.id), m);
          var s' := s.(members := s.members[(v.organizationId, user.id) := m], invites := s.invites[inviteId := AcceptInvite(v, now)]);
          Done(Logged(s', activityId, v.organizationId, InviteAccepted, user.id, None, Some(map["role" := RoleName(v.role)]), now), ())
  }

  /** `decline_invite`: the shared checks, then the invite is Declined. Expiry
      is not checked, and nothing but the invite and the record changes. */
  function DeclinePendingInvite(s: OrgStore, inviteId: string, userId: string, activityId: string, now: int): (o: Outcome<()>)
    ensures RefusedResponse(s, inviteId, userId, o)
    ensures o.result.Ok? <==> ResponseGuardsPass(s, inviteId, userId)
    ensures o.result.Ok? ==>
      && o.store.invites == s.invites[inviteId := DeclineInvite(s.invites[inviteId], now)]
      && o.store.members == s.members && o.store.orgs == s.orgs
  {
    if inviteId !in s.invites then Fail(s, InviteNotFound)
    else match FindUserById(s.users, userId)
      case None => Fail(s, UserNotFound)
      case Some(user) =>
        var v := s.invites[inviteId];
        if !IsAddressedTo(v, user) then Fail(s, InsufficientPermissions)
        else if v.status != Pending then Fail(s, InviteAlreadyProcessed)
        else
          var s' := s.(invites := s.invites[inviteId := DeclineInvite(v, now)]);
          Done(Logged(s', activityId, v.organizationId, InviteDeclined, user.id, None, None, now), ())
  }

  /** `cancel_invite`: an invite of another organisation is reported as not
      found; the requester must be a member who manages members. Any status
      can be cancelled, and the invite is deleted. */
  function CancelInvite(s: OrgStore, orgId: string, requester: string, inviteId: string): (o: Outcome<()>)
    ensures inviteId !in s.invites || s.invites[inviteId].organizationId != orgId ==> o == Fail(s, InviteNotFound)
    ensures (inviteId in s.invites && s.invites[inviteId].organizationId == orgId && !IsMember(s, orgId, requester))
            ==> o == Fail(s, NotOrgMember)
    ensures o.result.Ok? <==>
      && inviteId in s.invites && s.invites[inviteId].organizationId == orgId
      && IsMember(s, orgId, requester) && CanManageMembers(RoleOf(s, orgId, requester))
    ensures o.result.Ok? ==> o.store == s.(invites := s.invites - {inviteId})
    ensures o.result.Err? ==> o.store == s
  {
    if inviteId !in s.invites || s.invites[inviteId].organizationId != orgId then Fail(s, InviteNotFound)
    else if !IsMember(s, orgId, requester) then Fail(s, NotOrgMember)
    else if !CanManageMembers(RoleOf(s, orgId, requester)) then Fail(s, InsufficientPermissions)
    else Done(s.(invites := s.invites - {inviteId}), ())
  }

  // ---------------------------------------------------------------------------
  // lifecycle

  /** An invite sent to a known user is answered once: before it expires that
      user's acceptance creates a membership with the invite's role, which is
      never Owner; a second acceptance and a later decline both find it
      processed. */
  lemma InviteIsAnsweredOnce(s: OrgStore, orgId: string, inviterId: string, rawEmail: string, roleName: string,
                             inviteId: string, activityId: string, now: int,
                             memberId: string, acceptId: string, later: int, againId: string, declineId: string, last: int)
    requires SendInvite(s, orgId, inviterId, rawEmail, roleName, inviteId, activityId, now).result.Ok?
    requires FindUserByEmail(s.users, Auth.NewEmail(rawEmail).value).Some?
    requires now <= later <= now + InviteLifetime
    ensures
      var sent := SendInvite(s, orgId, inviterId, rawEmail, roleName, inviteId, activityId, now).store;
      var user := FindUserByEmail(s.users, Auth.NewEmail(rawEmail).value).value;
      var accepted := AcceptPendingInvite(sent, inviteId, user.id, memberId, acceptId, later);
      && accepted.result.Ok?
      && IsMember(accepted.store, orgId, user.id) && RoleOf(accepted.store, orgId, user.id) != Owner
      && AcceptPendingInvite(accepted.store, inviteId, user.id, memberId, againId, last) == Fail(accepted.store, InviteAlreadyProcessed)
      && DeclinePendingInvite(accepted.store, inviteId, user.id, declineId, last) == Fail(accepted.store, InviteAlreadyProcessed)
  {
    var o := SendInvite(s, orgId, inviterId, rawEmail, roleName, inviteId, activityId, now);
    var user := FindUserByEmail(s.users, Auth.NewEmail(rawEmail).value).value;
    var v := o.result.value;
    assert o.store.invites[inviteId] == v;
    assert o.store.users == s.users;
    assert user in s.users;
    assert FindUserById(s.users, user.id).Some?;
    var found := FindUserById(s.users, user.id).value;
    assert IsAddressedTo(v, found);
    assert ResponseGuardsPass(o.store, inviteId, user.id);
    var accepted := AcceptPendingInvite(o.store, inviteId, user.id, memberId, acceptId, later);
    assert accepted.store.invites[inviteId].status == Accepted;
    assert accepted.store.users == s.users;
  }

  /** Accepting after the expiry instant writes the Expired status and no membership. */
  lemma LateAcceptanceExpires(s: OrgStore, inviteId: string, userId: string, memberId: string, activityId: string, now: int)
    requires ResponseGuardsPass(s, inviteId, userId)
    requires now > s.invites[inviteId].expiresAt
    ensures var o := AcceptPendingInvite(s, inviteId, userId, memberId, activityId, now);
      && o.result == Err(InviteExpired) && o.store.members == s.members
      && o.store.invites[inviteId].status == Expired
      && AcceptPendingInvite(o.store, inviteId, userId, memberId, activityId, now) == Fail(o.store, InviteAlreadyProcessed)
  {
    var o := AcceptPendingInvite(s, inviteId, userId, memberId, activityId, now);
    assert o.store.users == s.users;
  }
}
