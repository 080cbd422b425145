/** The project handler's POST actions and the leave branch of DELETE: a
    state machine over the project, membership and invitation tables.
    Invitations (sent by the owner) and access requests (sent by the
    requester) are the same kind of row, told apart by `invitedById`. Each
    action is one atomic method of `ProjectStore`; the caller is the user
    `requireAuth` returned, and the clock, fresh ids and random tokens are
    parameters. */
module Invitations {
  import opened Wrappers
  import opened Text
  import opened Email
  import opened Access
  import U = Users

  datatype Status = Pending | Accepted | Declined | Revoked

  /** A row of the invitation table. */
  datatype Invitation = Invitation(id: string, projectId: string, email: string, token: string,
                                   status: Status, invitedById: Option<string>,
                                   acceptedById: Option<string>, respondedAt: Option<int>)

  type Invitations = map<string, Invitation>

  /** The invitation table as the database keeps it: rows filed under their
      id, each for an existing project, with unique tokens and at most one
      row per (project, email). */
  predicate InvitationsValid(projects: map<string, Project>, invs: Invitations) {
    (forall i :: i in invs ==> invs[i].id == i && invs[i].projectId in projects)
    && (forall i, j :: i in invs && j in invs && invs[i].token == invs[j].token ==> i == j)
    && (forall i, j ::
          i in invs && j in invs && invs[i].projectId == invs[j].projectId && invs[i].email == invs[j].email
          ==> i == j)
  }

  predicate TokenUsed(invs: Invitations, token: string) {
    exists i :: i in invs && invs[i].token == token
  }

  predicate RowFor(invs: Invitations, projectId: string, email: string) {
    exists i :: i in invs && invs[i].projectId == projectId && invs[i].email == email
  }

  /** `findUnique({ where: { token } })`. */
  function FindByToken(projects: map<string, Project>, invs: Invitations, token: string): (r: Option<Invitation>)
    requires InvitationsValid(projects, invs)
    ensures r.Some? <==> TokenUsed(invs, token)
    ensures r.Some? ==> r.value.id in invs && invs[r.value.id] == r.value && r.value.token == token
  {
    if TokenUsed(invs, token) then
      var i :| i in invs && invs[i].token == token;
      Some(invs[i])
    else None
  }

  /** `findUnique({ where: { projectId_email: { projectId, email } } })`. */
  function FindByProjectEmail(projects: map<string, Project>, invs: Invitations,
                              projectId: string, email: string): (r: Option<Invitation>)
    requires InvitationsValid(projects, invs)
    ensures r.Some? <==> RowFor(invs, projectId, email)
    ensures r.Some? ==> r.value.id in invs && invs[r.value.id] == r.value
                        && r.value.projectId == projectId && r.value.email == email
  {
    if RowFor(invs, projectId, email) then
      var i :| i in invs && invs[i].projectId == projectId && invs[i].email == email;
      Some(invs[i])
    else None
  }

  /** The row a user action names: by token when one is given, else by id. */
  function LookupForUser(projects: map<string, Project>, invs: Invitations, token: string,
                         invitationId: string): Option<Invitation>
    requires InvitationsValid(projects, invs)
  {
    if token != "" then FindByToken(projects, invs, token)
    else if invitationId in invs then Some(invs[invitationId])
    else None
  }

  /** `getInvitationForUserAction`: 400 without a token or id, then 404 for
      no row, then 409 when it is not pending, then 403 when it is addressed
      to another email; otherwise the pending row addressed to the caller. */
  function InvitationForUser(projects: map<string, Project>, invs: Invitations, token: string,
                             invitationId: string, email: string): (r: Result<Invitation>)
    requires InvitationsValid(projects, invs)
    ensures r.Err? ==> r.error.status in {400, 403, 404, 409}
    ensures r.Err? && r.error.status == 400 <==> token == "" && invitationId == ""
    ensures r.Err? && r.error.status == 404 <==>
      (token != "" || invitationId != "") && LookupForUser(projects, invs, token, invitationId).None?
    ensures r.Err? && r.error.status == 409 <==>
      (token != "" || invitationId != "") && LookupForUser(projects, invs, token, invitationId).Some?
      && LookupForUser(projects, invs, token, invitationId).value.status != Pending
    ensures r.Ok? ==>
      r.value.id in invs && invs[r.value.id] == r.value && r.value.status == Pending
      && NormalizeEmail(r.value.email) == NormalizeEmail(email)
      && (token != "" ==> r.value.token == token) && (token == "" ==> r.value.id == invitationId)
    ensures r.Ok? <==>
      (token != "" || invitationId != "") && LookupForUser(projects, invs, token, invitationId).Some?
      && LookupForUser(projects, invs, token, invitationId).value.status == Pending
      && NormalizeEmail(LookupForUser(projects, invs, token, invitationId).value.email) == NormalizeEmail(email)
    ensures r.Ok? ==> r.value == LookupForUser(projects, invs, token, invitationId).value
  {
    if token == "" && invitationId == "" then Err(BadRequest("Missing token or invitationId"))
    else
      match LookupForUser(projects, invs, token, invitationId)
      case None => Err(NotFound("Invitation not found"))
      case Some(inv) =>
        if inv.status != Pending then Err(Conflict("Invitation not pending"))
        else if NormalizeEmail(inv.email) != NormalizeEmail(email) then Err(Forbidden())
        else Ok(inv)
  }

  /** `getRequestForOwnerAction`: 400 without an id, 404 for no row, 409 when
      it is not pending, 403 when the caller does not own its project, and
      409 "Not a request" when it was not sent by someone other than the
      owner; otherwise the pending access request. */
  function RequestForOwner(projects: map<string, Project>, invs: Invitations, invitationId: string,
                           ownerId: string): (r: Result<Invitation>)
    requires InvitationsValid(projects, invs)
    ensures r.Err? ==> r.error.status in {400, 403, 404, 409}
    ensures r.Err? && r.error.status == 400 <==> invitationId == ""
    ensures r.Err? && r.error.status == 404 <==> invitationId != "" && invitationId !in invs
    ensures r.Err? && r.error.status == 403 <==>
      invitationId != "" && invitationId in invs && invs[invitationId].status == Pending
      && projects[invs[invitationId].projectId].ownerId != ownerId
    ensures r.Ok? ==>
      r.value == invs[invitationId] && r.value.status == Pending
      && projects[r.value.projectId].ownerId == ownerId
      && r.value.invitedById.Some? && r.value.invitedById.value != ownerId
    ensures r == Err(Conflict("Not a request")) <==>
      invitationId != "" && invitationId in invs && invs[invitationId].status == Pending
      && projects[invs[invitationId].projectId].ownerId == ownerId
      && (invs[invitationId].invitedById.None? || invs[invitationId].invitedById.value == ownerId)
    ensures r.Ok? <==>
      invitationId != "" && invitationId in invs && invs[invitationId].status == Pending
      && projects[invs[invitationId].projectId].ownerId == ownerId
      && invs[invitationId].invitedById.Some? && invs[invitationId].invitedById.value != ownerId
  {
    if invitationId == "" then Err(BadRequest("Missing invitationId"))
    else if invitationId !in invs then Err(NotFound("Invitation not found"))
    else
      var inv := invs[invitationId];
      if inv.status != Pending then Err(Conflict("Invitation not pending"))
      else if projects[inv.projectId].ownerId != ownerId then Err(Forbidden())
      else if inv.invitedById.None? || inv.invitedById.value == ownerId then Err(Conflict("Not a request"))
      else Ok(inv)
  }

  /** The row after it has been (re)issued as pending with a new token. */
  function Reissued(inv: Invitation, token: string, senderId: string): (r: Invitation)
    ensures r.id == inv.id && r.projectId == inv.projectId && r.email == inv.email
    ensures r.token == token && r.status == Pending && r.invitedById == Some(senderId)
    ensures r.acceptedById.None? && r.respondedAt.None?
  {
    inv.(token := token, status := Pending, invitedById := Some(senderId), acceptedById := None,
         respondedAt := None)
  }

  /** The row after the invited user accepted, or the owner approved. */
  function AcceptedBy(inv: Invitation, userId: string, nowMs: int): (r: Invitation)
    ensures r.id == inv.id && r.projectId == inv.projectId && r.email == inv.email
    ensures r.token == inv.token && r.invitedById == inv.invitedById
    ensures r.status == Accepted && r.acceptedById == Some(userId) && r.respondedAt == Some(nowMs)
  {
    inv.(status := Accepted, acceptedById := Some(userId), respondedAt := Some(nowMs))
  }

  /** The row after a decline or a rejection. */
  function DeclinedAt(inv: Invitation, nowMs: int): (r: Invitation)
    ensures r.id == inv.id && r.projectId == inv.projectId && r.email == inv.email
    ensures r.token == inv.token && r.invitedById == inv.invitedById
    ensures r.status == Declined && r.acceptedById.None? && r.respondedAt == Some(nowMs)
  {
    inv.(status := Declined, acceptedById := None, respondedAt := Some(nowMs))
  }

  /** The row after the owner revoked it; who accepted it is left as it was. */
  function RevokedAt(inv: Invitation, nowMs: int): (r: Invitation)
    ensures r.id == inv.id && r.projectId == inv.projectId && r.email == inv.email
    ensures r.token == inv.token && r.invitedById == inv.invitedById && r.acceptedById == inv.acceptedById
    ensures r.status == Revoked && r.respondedAt == Some(nowMs)
  {
    inv.(status := Revoked, respondedAt := Some(nowMs))
  }

  /** Rewriting a row in place without touching its id, project, email or
      token keeps the table valid. */
  lemma RewriteKeepsValid(projects: map<string, Project>, invs: Invitations, inv: Invitation)
    requires InvitationsValid(projects, invs) && inv.id in invs
    requires inv.projectId == invs[inv.id].projectId && inv.email == invs[inv.id].email
    requires inv.token == invs[inv.id].token
    ensures InvitationsValid(projects, invs[inv.id := inv])
  {
  }

  /** Reissuing a row with an unused token keeps the table valid. */
  lemma ReissueKeepsValid(projects: map<string, Project>, invs: Invitations, id: string, token: string,
                          senderId: string)
    requires InvitationsValid(projects, invs) && id in invs && !TokenUsed(invs, token)
    ensures InvitationsValid(projects, invs[id := Reissued(invs[id], token, senderId)])
  {
  }

  /** Adding a row with a fresh id and token, for an existing project and a
      (project, email) pair without a row, keeps the table valid. */
  lemma InsertKeepsValid(projects: map<string, Project>, invs: Invitations, inv: Invitation)
    requires InvitationsValid(projects, invs) && inv.id !in invs && inv.projectId in projects
    requires !TokenUsed(invs, inv.token) && !RowFor(invs, inv.projectId, inv.email)
    ensures InvitationsValid(projects, invs[inv.id := inv])
  {
  }

  // ---------------------------------------------------------------------
  // Properties of the guards

  /** Once accepted, declined or revoked, an invitation can no longer be
      acted on by its user: the guard answers 409. */
  lemma AnsweredInvitationIsClosed(projects: map<string, Project>, invs: Invitations, inv: Invitation,
                                   email: string)
    requires InvitationsValid(projects, invs) && inv.id in invs && invs[inv.id] == inv
    requires inv.status != Pending && inv.id != ""
    ensures InvitationForUser(projects, invs, "", inv.id, email) == Err(Conflict("Invitation not pending"))
    ensures inv.token != "" ==>
      InvitationForUser(projects, invs, inv.token, "", email) == Err(Conflict("Invitation not pending"))
  {
    if inv.token != "" {
      assert TokenUsed(invs, inv.token);
      assert FindByToken(projects, invs, inv.token).value == inv;
    }
  }

  /** A request the owner has answered cannot be approved or rejected again. */
  lemma AnsweredRequestIsClosed(projects: map<string, Project>, invs: Invitations, id: string, ownerId: string)
    requires InvitationsValid(projects, invs) && id in invs && id != "" && invs[id].status != Pending
    ensures RequestForOwner(projects, invs, id, ownerId) == Err(Conflict("Invitation not pending"))
  {
  }

  /** An invitation the owner sent is not an access request: the owner
      cannot approve it on the invitee's behalf. */
  lemma OwnInvitationIsNotARequest(projects: map<string, Project>, invs: Invitations, id: string)
    requires InvitationsValid(projects, invs) && id in invs && id != "" && invs[id].status == Pending
    requires invs[id].invitedById == Some(projects[invs[id].projectId].ownerId)
    ensures RequestForOwner(projects, invs, id, projects[invs[id].projectId].ownerId)
            == Err(Conflict("Not a request"))
  {
  }

  // ---------------------------------------------------------------------
  // The tables

  /** The caller's (project, email) row is a pending invitation that
      someone else sent: `request_access` leaves it alone. */
  predicate PendingFromOther(projects: map<string, Project>, invs: Invitations, projectId: string,
                             email: string, userId: string)
    requires InvitationsValid(projects, invs)
  {
    var row := FindByProjectEmail(projects, invs, projectId, email);
    row.Some? && row.value.status == Pending && row.value.invitedById != Some(userId)
  }

  /** The invited address belongs to the project's owner or to a member. */
  predicate InviteeIsMember(users: map<string, U.User>, members: Members, projectId: string,
                            ownerId: string, email: string)
    requires U.WellFormed(users)
  {
    var invitee := U.FindByEmail(users, email);
    invitee.Some? && (invitee.value.id == ownerId || (projectId, invitee.value.id) in members)
  }

  /** The outcome of `request_access`. */
  datatype RequestOutcome = HasRole(role: Role) | AlreadyInvited | RequestPending

  class ProjectStore {
    var projects: map<string, Project>
    var members: Members
    var invitations: Invitations

    ghost predicate Valid()
      reads this
    {
      MembersValid(projects, members) && InvitationsValid(projects, invitations)
    }

    constructor ()
      ensures Valid() && projects == map[] && members == map[] && invitations == map[]
    {
      projects := map[];
      members := map[];
      invitations := map[];
    }

    /** `create`: a new project owned by the caller, with the caller's OWNER
        membership row, in one transaction. */
    method Create(me: U.User, nameRaw: string, descriptionRaw: string, newId: string)
      returns (r: Result<(Project, Role)>)
      requires Valid() && newId !in projects
      modifies this
      ensures Valid()
      ensures Trim(nameRaw) == "" ==> r == Err(BadRequest("Missing name")) && unchanged(this)
      ensures Trim(nameRaw) != "" ==>
        var description := if Trim(descriptionRaw) == "" then None else Some(Trim(descriptionRaw));
        var p := Project(newId, Trim(nameRaw), description, me.id);
        projects == old(projects)[newId := p] && members == old(members)[(newId, me.id) := Owner]
        && invitations == old(invitations) && r == Ok((p, Owner))
    {
      var name := Trim(nameRaw);
      if name == "" {
        return Err(BadRequest("Missing name"));
      }
      var description := if Trim(descriptionRaw) == "" then None else Some(Trim(descriptionRaw));
      var p := Project(newId, name, description, me.id);
      assert forall k :: k in members ==> k.0 != newId;
      projects := projects[newId := p];
      members := members[(newId, me.id) := Owner];
      return Ok((p, Owner));
    }

    /** `request_access`: the owner and existing members are told their role;
        a pending row sent by someone else is left alone; otherwise the
        caller's row for the project is created, or reset, as a pending
        request with a fresh token. */
    method RequestAccess(me: U.User, projectIdRaw: string, newId: string, token: string)
      returns (r: Result<RequestOutcome>)
      requires Valid() && newId !in invitations && !TokenUsed(invitations, token)
      modifies this
      ensures Valid()
      ensures projects == old(projects) && members == old(members)
      ensures Trim(projectIdRaw) == "" ==> r == Err(BadRequest("Missing projectId")) && unchanged(this)
      ensures Trim(projectIdRaw) != "" && Trim(projectIdRaw) !in projects ==>
        r == Err(NotFound("Project not found")) && unchanged(this)
      ensures r.Err? <==> Trim(projectIdRaw) == "" || Trim(projectIdRaw) !in projects
      ensures r.Err? ==> unchanged(this)
      ensures Trim(projectIdRaw) != "" && Trim(projectIdRaw) in projects
              && projects[Trim(projectIdRaw)].ownerId == me.id ==>
        r == Ok(HasRole(Owner))
      ensures Trim(projectIdRaw) != "" && Trim(projectIdRaw) in projects
              && projects[Trim(projectIdRaw)].ownerId != me.id
              && (Trim(projectIdRaw), me.id) in members ==>
        r == Ok(HasRole(members[(Trim(projectIdRaw), me.id)]))
      ensures Trim(projectIdRaw) != "" && Trim(projectIdRaw) in projects
              && projects[Trim(projectIdRaw)].ownerId != me.id
              && (Trim(projectIdRaw), me.id) !in members ==>
        r == (if PendingFromOther(projects, old(invitations), Trim(projectIdRaw), NormalizeEmail(me.email), me.id)
              then Ok(AlreadyInvited) else Ok(RequestPending))
      ensures r.Ok? && r.value.HasRole? ==> unchanged(this)
      ensures r.Ok? && r.value.AlreadyInvited? ==> unchanged(this)
      ensures r.Ok? && r.value.RequestPending? ==>
        var pid := Trim(projectIdRaw);
        var email := NormalizeEmail(me.email);
        pid in projects && projects[pid].ownerId != me.id && (pid, me.id) !in members
        && (if RowFor(old(invitations), pid, email) then
              var inv := FindByProjectEmail(projects, old(invitations), pid, email).value;
              invitations == old(invitations)[inv.id := Reissued(inv, token, me.id)]
            else
              invitations == old(invitations)[newId := Invitation(newId, pid, email, token, Pending,
                                                                  Some(me.id), None, None)])
      ensures r.Ok? && r.value.AlreadyInvited? ==>
        var inv := FindByProjectEmail(projects, invitations, Trim(projectIdRaw), NormalizeEmail(me.email));
        inv.Some? && inv.value.status == Pending && inv.value.invitedById != Some(me.id)
    {
      var projectId := Trim(projectIdRaw);
      if projectId == "" {
        return Err(BadRequest("Missing projectId"));
      }
      if projectId !in projects {
        return Err(NotFound("Project not found"));
      }
      if projects[projectId].ownerId == me.id {
        return Ok(HasRole(Owner));
      }
      if (projectId, me.id) in members {
        return Ok(HasRole(members[(projectId, me.id)]));
      }
      var email := NormalizeEmail(me.email);
      var existing := FindByProjectEmail(projects, invitations, projectId, email);
      if existing.Some? {
        var inv := existing.value;
        if inv.status == Pending && inv.invitedById != Some(me.id) {
          return Ok(AlreadyInvited);
        }
        ReissueKeepsValid(projects, invitations, inv.id, token, me.id);
        invitations := invitations[inv.id := Reissued(inv, token, me.id)];
        return Ok(RequestPending);
      }
      var row := Invitation(newId, projectId, email, token, Pending, Some(me.id), None, None);
      InsertKeepsValid(projects, invitations, row);
      invitations := invitations[newId := row];
      return Ok(RequestPending);
    }

    /** `invite`: the owner invites an email address. 400 for a missing
        project id, a missing or malformed email; 404/403 from the access
        check; 403 for a non-owner; 409 when the address is the owner's or a
        member's; otherwise a pending row with the new token, reusing the
        existing row for that address if there is one. */
    method Invite(me: U.User, users: map<string, U.User>, projectIdRaw: string, emailRaw: string,
                  newId: string, token: string) returns (r: Result<Invitation>)
      requires Valid() && U.WellFormed(users) && newId !in invitations && !TokenUsed(invitations, token)
      modifies this
      ensures Valid()
      ensures projects == old(projects) && members == old(members)
      ensures r.Err? ==> unchanged(this)
      ensures Trim(projectIdRaw) == "" ==> r == Err(BadRequest("Missing projectId"))
      ensures Trim(projectIdRaw) != "" && emailRaw == "" ==> r == Err(BadRequest("Missing email"))
      ensures Trim(projectIdRaw) != "" && emailRaw != "" && !IsValidEmail(NormalizeEmail(emailRaw)) ==>
        r == Err(BadRequest("Invalid email"))
      ensures r.Ok? <==>
        var pid := Trim(projectIdRaw);
        var email := NormalizeEmail(emailRaw);
        pid != "" && emailRaw != "" && IsValidEmail(email) && pid in projects && projects[pid].ownerId == me.id
        && email != NormalizeEmail(me.email) && !InviteeIsMember(users, members, pid, me.id, email)
      ensures Trim(projectIdRaw) != "" && emailRaw != "" && IsValidEmail(NormalizeEmail(emailRaw)) ==>
        var pid := Trim(projectIdRaw);
        var email := NormalizeEmail(emailRaw);
        (pid !in projects ==> r == Err(NotFound("Project not found")))
        && (pid in projects && projects[pid].ownerId != me.id ==> r == Err(Forbidden()))
        && (pid in projects && projects[pid].ownerId == me.id
            && (email == NormalizeEmail(me.email) || InviteeIsMember(users, members, pid, me.id, email)) ==>
              r == Err(Conflict("Already a member")))
      ensures r.Ok? ==>
        var pid := Trim(projectIdRaw);
        var email := NormalizeEmail(emailRaw);
        IsValidEmail(email) && pid in projects && projects[pid].ownerId == me.id
        && email != NormalizeEmail(me.email)
        && (U.EmailTaken(users, email) ==>
              var invitee := U.FindByEmail(users, email).value;
              invitee.id != me.id && (pid, invitee.id) !in members)
        && r.value.status == Pending && r.value.token == token && r.value.invitedById == Some(me.id)
        && (if RowFor(old(invitations), pid, email) then
              var inv := FindByProjectEmail(projects, old(invitations), pid, email).value;
              r.value == Reissued(inv, token, me.id) && invitations == old(invitations)[inv.id := r.value]
            else
              r.value == Invitation(newId, pid, email, token, Pending, Some(me.id), None, None)
              && invitations == old(invitations)[newId := r.value])
    {
      var projectId := Trim(projectIdRaw);
      if projectId == "" {
        return Err(BadRequest("Missing projectId"));
      }
      if emailRaw == "" {
        return Err(BadRequest("Missing email"));
      }
      var email := NormalizeEmail(emailRaw);
      if !IsValidEmail(email) {
        return Err(BadRequest("Invalid email"));
      }
      var access := ProjectAccess(projects, members, projectId, me.id);
      if access.Err? {
        return Err(access.error);
      }
      var project := access.value.0;
      if project.ownerId != me.id {
        return Err(Forbidden());
      }
      if email == NormalizeEmail(me.email) {
        return Err(Conflict("Already a member"));
      }
      var invitee := U.FindByEmail(users, email);
      if invitee.Some? {
        if invitee.value.id == project.ownerId {
          return Err(Conflict("Already a member"));
        }
        if (projectId, invitee.value.id) in members {
          return Err(Conflict("Already a member"));
        }
      }
      var row := StoreInvitation(projectId, email, token, me.id, newId);
      return Ok(row);
    }

    /** The upsert of `invite`: the project's row for the address is sent
        again with the new token, or a new PENDING row is made. */
    method StoreInvitation(projectId: string, email: string, token: string, senderId: string, newId: string)
      returns (row: Invitation)
      requires Valid() && projectId in projects && newId !in invitations && !TokenUsed(invitations, token)
      modifies this
      ensures Valid()
      ensures projects == old(projects) && members == old(members)
      ensures if RowFor(old(invitations), projectId, email) then
          var inv := FindByProjectEmail(projects, old(invitations), projectId, email).value;
          row == Reissued(inv, token, senderId) && invitations == old(invitations)[inv.id := row]
        else
          row == Invitation(newId, projectId, email, token, Pending, Some(senderId), None, None)
          && invitations == old(invitations)[newId := row]
    {
      var existing := FindByProjectEmail(projects, invitations, projectId, email);
      if existing.Some? {
        row := Reissued(existing.value, token, senderId);
        ReissueKeepsValid(projects, invitations, existing.value.id, token, senderId);
        invitations := invitations[row.id := row];
      } else {
        row := Invitation(newId, projectId, email, token, Pending, Some(senderId), None, None);
        InsertKeepsValid(projects, invitations, row);
        invitations := invitations[newId := row];
      }
    }

    /** `accept_invite`: the guard, then in one transaction the row becomes
        ACCEPTED by the caller and the caller gets a MEMBER row unless they
        already have one. */
    method Accept(me: U.User, tokenRaw: string, invitationIdRaw: string, nowMs: int)
      returns (r: Result<Project>)
      requires Valid()
      modifies this
      ensures Valid()
      ensures projects == old(projects)
      ensures var g := InvitationForUser(old(projects), old(invitations), Trim(tokenRaw), Trim(invitationIdRaw), me.email);
        (g.Err? ==> r == Err(g.error) && unchanged(this))
        && (g.Ok? ==>
              invitations == old(invitations)[g.value.id := AcceptedBy(g.value, me.id, nowMs)]
              && members == UpsertMember(old(members), g.value.projectId, me.id)
              && r == Ok(projects[g.value.projectId]))
    {
      var g := InvitationForUser(projects, invitations, Trim(tokenRaw), Trim(invitationIdRaw), me.email);
      if g.Err? {
        return Err(g.error);
      }
      var inv := g.value;
      RewriteKeepsValid(projects, invitations, AcceptedBy(inv, me.id, nowMs));
      UpsertGrantsAccess(projects, members, inv.projectId, me.id);
      invitations := invitations[inv.id := AcceptedBy(inv, me.id, nowMs)];
      members := UpsertMember(members, inv.projectId, me.id);
      return Ok(projects[inv.projectId]);
    }

    /** `decline_invite`: the guard, then the row becomes DECLINED. */
    method Decline(me: U.User, tokenRaw: string, invitationIdRaw: string, nowMs: int)
      returns (r: Result<bool>)
      requires Valid()
      modifies this
      ensures Valid()
      ensures projects == old(projects) && members == old(members)
      ensures var g := InvitationForUser(old(projects), old(invitations), Trim(tokenRaw), Trim(invitationIdRaw), me.email);
        (g.Err? ==> r == Err(g.error) && unchanged(this))
        && (g.Ok? ==> invitations == old(invitations)[g.value.id := DeclinedAt(g.value, nowMs)] && r == Ok(true))
    {
      var g := InvitationForUser(projects, invitations, Trim(tokenRaw), Trim(invitationIdRaw), me.email);
      if g.Err? {
        return Err(g.error);
      }
      RewriteKeepsValid(projects, invitations, DeclinedAt(g.value, nowMs));
      invitations := invitations[g.value.id := DeclinedAt(g.value, nowMs)];
      return Ok(true);
    }

    /** `approve_request`: the owner's guard, then in one transaction the row
        becomes ACCEPTED on behalf of the requester, who gets a MEMBER row
        unless they already have one. */
    method Approve(me: U.User, invitationIdRaw: string, nowMs: int) returns (r: Result<bool>)
      requires Valid()
      modifies this
      ensures Valid()
      ensures projects == old(projects)
      ensures var g := RequestForOwner(old(projects), old(invitations), Trim(invitationIdRaw), me.id);
        (g.Err? ==> r == Err(g.error) && unchanged(this))
        && (g.Ok? ==>
              var requester := g.value.invitedById.value;
              invitations == old(invitations)[g.value.id := AcceptedBy(g.value, requester, nowMs)]
              && members == UpsertMember(old(members), g.value.projectId, requester)
              && r == Ok(true))
    {
      var g := RequestForOwner(projects, invitations, Trim(invitationIdRaw), me.id);
      if g.Err? {
        return Err(g.error);
      }
      var inv := g.value;
      var requester := inv.invitedById.value;
      RewriteKeepsValid(projects, invitations, AcceptedBy(inv, requester, nowMs));
      UpsertGrantsAccess(projects, members, inv.projectId, requester);
      invitations := invitations[inv.id := AcceptedBy(inv, requester, nowMs)];
      members := UpsertMember(members, inv.projectId, requester);
      return Ok(true);
    }

    /** `reject_request`: the owner's guard, then the row becomes DECLINED. */
    method Reject(me: U.User, invitationIdRaw: string, nowMs: int) returns (r: Result<bool>)
      requires Valid()
      modifies this
      ensures Valid()
      ensures projects == old(projects) && members == old(members)
      ensures var g := RequestForOwner(old(projects), old(invitations), Trim(invitationIdRaw), me.id);
        (g.Err? ==> r == Err(g.error) && unchanged(this))
        && (g.Ok? ==> invitations == old(invitations)[g.value.id := DeclinedAt(g.value, nowMs)] && r == Ok(true))
    {
      var g := RequestForOwner(projects, invitations, Trim(invitationIdRaw), me.id);
      if g.Err? {
        return Err(g.error);
      }
      RewriteKeepsValid(projects, invitations, DeclinedAt(g.value, nowMs));
      invitations := invitations[g.value.id := DeclinedAt(g.value, nowMs)];
      return Ok(true);
    }

    /** `revoke_invite`, as written: the caller must own the project named in
        the request, but the invitation is looked up by id alone, in any
        status and of any project. A missing row makes the update throw,
        which surfaces as a 500. */
    method Revoke(me: U.User, projectIdRaw: string, invitationIdRaw: string, nowMs: int)
      returns (r: Result<bool>)
      requires Valid()
      modifies this
      ensures Valid()
      ensures projects == old(projects) && members == old(members)
      ensures r.Err? ==> unchanged(this)
      ensures Trim(projectIdRaw) == "" ==> r == Err(BadRequest("Missing projectId"))
      ensures Trim(projectIdRaw) != "" && Trim(invitationIdRaw) == "" ==> r == Err(BadRequest("Missing invitationId"))
      ensures Trim(projectIdRaw) != "" && Trim(invitationIdRaw) != "" ==>
        var pid := Trim(projectIdRaw);
        var access := ProjectAccess(old(projects), old(members), pid, me.id);
        (access.Err? ==> r == Err(access.error))
        && (access.Ok? && access.value.0.ownerId != me.id ==> r == Err(Forbidden()))
        && (access.Ok? && access.value.0.ownerId == me.id && Trim(invitationIdRaw) !in old(invitations) ==>
              r == Err(Internal("Record to update not found")))
      ensures r.Ok? <==>
        Trim(projectIdRaw) != "" && Trim(invitationIdRaw) != ""
        && ProjectAccess(projects, members, Trim(projectIdRaw), me.id).Ok?
        && projects[Trim(projectIdRaw)].ownerId == me.id
        && Trim(invitationIdRaw) in old(invitations)
      ensures r.Ok? ==>
        var id := Trim(invitationIdRaw);
        invitations == old(invitations)[id := RevokedAt(old(invitations)[id], nowMs)]
    {
      var projectId := Trim(projectIdRaw);
      var invitationId := Trim(invitationIdRaw);
      if projectId == "" {
        return Err(BadRequest("Missing projectId"));
      }
      if invitationId == "" {
        return Err(BadRequest("Missing invitationId"));
      }
      var access := ProjectAccess(projects, members, projectId, me.id);
      if access.Err? {
        return Err(access.error);
      }
      if access.value.0.ownerId != me.id {
        return Err(Forbidden());
      }
      if invitationId !in invitations {
        return Err(Internal("Record to update not found"));
      }
      RewriteKeepsValid(projects, invitations, RevokedAt(invitations[invitationId], nowMs));
      invitations := invitations[invitationId := RevokedAt(invitations[invitationId], nowMs)];
      return Ok(true);
    }

    /** `remove_member`: only the owner may remove, never the owner's own
        row; removing a user without a row makes the delete throw (500). */
    method RemoveMember(me: U.User, projectIdRaw: string, memberIdRaw: string) returns (r: Result<bool>)
      requires Valid()
      modifies this
      ensures Valid()
      ensures projects == old(projects) && invitations == old(invitations)
      ensures r.Err? ==> unchanged(this)
      ensures (Trim(projectIdRaw) in projects && Trim(memberIdRaw) == projects[Trim(projectIdRaw)].ownerId)
              ==> r.Err?
      ensures Trim(projectIdRaw) == "" ==> r == Err(BadRequest("Missing projectId"))
      ensures Trim(projectIdRaw) != "" && Trim(memberIdRaw) == "" ==> r == Err(BadRequest("Missing memberUserId"))
      ensures Trim(projectIdRaw) != "" && Trim(memberIdRaw) != "" ==>
        var pid := Trim(projectIdRaw);
        var access := ProjectAccess(old(projects), old(members), pid, me.id);
        (access.Err? ==> r == Err(access.error))
        && (access.Ok? && access.value.0.ownerId != me.id ==> r == Err(Forbidden()))
        && (access.Ok? && access.value.0.ownerId == me.id && Trim(memberIdRaw) == me.id ==>
              r == Err(Conflict("Cannot remove owner")))
        && (access.Ok? && access.value.0.ownerId == me.id && Trim(memberIdRaw) != me.id
            && (pid, Trim(memberIdRaw)) !in old(members) ==>
              r == Err(Internal("Record to delete does not exist")))
      ensures (Trim(projectIdRaw) != "" && Trim(projectIdRaw) in projects && projects[Trim(projectIdRaw)].ownerId == me.id
               && Trim(memberIdRaw) == me.id && me.id != "")
              ==> r == Err(Conflict("Cannot remove owner"))
      ensures r.Ok? <==>
        Trim(projectIdRaw) != "" && Trim(memberIdRaw) != "" && Trim(projectIdRaw) in projects
        && projects[Trim(projectIdRaw)].ownerId == me.id && Trim(memberIdRaw) != me.id
        && (Trim(projectIdRaw), Trim(memberIdRaw)) in old(members)
      ensures r.Ok? ==> members == old(members) - {(Trim(projectIdRaw), Trim(memberIdRaw))}
    {
      var projectId := Trim(projectIdRaw);
      var memberId := Trim(memberIdRaw);
      if projectId == "" {
        return Err(BadRequest("Missing projectId"));
      }
      if memberId == "" {
        return Err(BadRequest("Missing memberUserId"));
      }
      var access := ProjectAccess(projects, members, projectId, me.id);
      if access.Err? {
        return Err(access.error);
      }
      var project := access.value.0;
      if project.ownerId != me.id {
        return Err(Forbidden());
      }
      if memberId == project.ownerId {
        return Err(Conflict("Cannot remove owner"));
      }
      if (projectId, memberId) !in members {
        return Err(Internal("Record to delete does not exist"));
      }
      RemoveKeepsValid(projects, members, projectId, memberId);
      members := members - {(projectId, memberId)};
      return Ok(true);
    }

    /** DELETE with `leave`: a member leaves; the owner gets 409. */
    method Leave(me: U.User, projectIdRaw: string) returns (r: Result<bool>)
      requires Valid()
      modifies this
      ensures Valid()
      ensures projects == old(projects) && invitations == old(invitations)
      ensures r.Err? ==> unchanged(this)
      ensures Trim(projectIdRaw) == "" ==> r == Err(BadRequest("Missing id"))
      ensures Trim(projectIdRaw) != "" ==>
        var access := ProjectAccess(old(projects), old(members), Trim(projectIdRaw), me.id);
        access.Err? ==> r == Err(access.error)
      ensures (Trim(projectIdRaw) != "" && Trim(projectIdRaw) in projects && projects[Trim(projectIdRaw)].ownerId == me.id)
              ==> r == Err(Conflict("Owner cannot leave"))
      ensures r.Ok? <==>
        Trim(projectIdRaw) != "" && Trim(projectIdRaw) in projects
        && projects[Trim(projectIdRaw)].ownerId != me.id && (Trim(projectIdRaw), me.id) in old(members)
      ensures r.Ok? ==> members == old(members) - {(Trim(projectIdRaw), me.id)}
    {
      var projectId := Trim(projectIdRaw);
      if projectId == "" {
        return Err(BadRequest("Missing id"));
      }
      var access := ProjectAccess(projects, members, projectId, me.id);
      if access.Err? {
        return Err(access.error);
      }
      RoleMatchesTables(projects, members, projectId, me.id);
      if access.value.1 == Owner {
        return Err(Conflict("Owner cannot leave"));
      }
      RemoveKeepsValid(projects, members, projectId, me.id);
      members := members - {(projectId, me.id)};
      return Ok(true);
    }
  }
}
