/** Project invites: inviting a user into a project, reading, answering and
    deleting an invite. Accepting an invite is what makes the invitee a
    project member: the project's tag text is appended to their roles. */
module Invites {
  import opened Results
  import opened Text
  import opened Records
  import opened Users

  /** The arguments of the `post_projInvite` call that stores a new invite,
      and the id it answers with. */
  datatype PostedInvite = PostedInvite(inviteid: int, projectid: int, tag: string, byuserid: int, touserid: int)

  /** `ProjectInvitePublic`. */
  datatype InvitePublic = InvitePublic(
    projectname: string,
    inviteid: int,
    projectid: int,
    tag: string,
    byuserid: int,
    touserid: int,
    status: int)

  // ---------------------------------------------------------------------------
  // Creating

  /** The invitee already has an invite into `projectid`. */
  predicate InvitedTo(invites: seq<Invite>, projectid: int) {
    exists i :: 0 <= i < |invites| && invites[i].projectid == projectid
  }

  /** The `alreadyInvited` loop of `create_proj_invite`. */
  method AlreadyInvited(inviteList: seq<Invite>, projectid: int) returns (alreadyInvited: bool)
    ensures alreadyInvited <==> exists i :: 0 <= i < |inviteList| && inviteList[i].projectid == projectid
  {
    alreadyInvited := false;
    for i := 0 to |inviteList|
      invariant alreadyInvited <==> exists j :: 0 <= j < i && inviteList[j].projectid == projectid
    {
      if inviteList[i].projectid == projectid {
        alreadyInvited := true;
      }
    }
  }

  /** `create_proj_invite`: 404 without the project, 500 without its tag, 404
      without the invitee, 409 when the invitee already holds the tag as a
      role, 409 when one of the invitee's invites is for this project;
      otherwise the invite is posted by the caller with the tag's text. */
  function CreateProjInvite(current: User, projectid: int, touserid: int,
                            proj: Option<Project>, tag: Option<Tag>, touser: Option<User>,
                            inviteList: seq<Invite>, newInviteId: int): (r: Result<PostedInvite>)
    ensures proj.None? ==> r == Err(Http(NOT_FOUND_404))
    ensures proj.Some? && tag.None? ==> r == Err(Http(INTERNAL_SERVER_ERROR_500))
    ensures proj.Some? && tag.Some? && touser.None? ==> r == Err(Http(NOT_FOUND_404))
    ensures proj.Some? && tag.Some? && touser.Some? && HasRole(touser.value, tag.value.text) ==> r == Err(Http(CONFLICT_409))
    ensures proj.Some? && tag.Some? && touser.Some? && InvitedTo(inviteList, projectid) ==> r == Err(Http(CONFLICT_409))
    ensures r.Ok? <==>
      && proj.Some? && tag.Some? && touser.Some?
      && !HasRole(touser.value, tag.value.text) && !InvitedTo(inviteList, projectid)
    ensures r.Ok? ==> r.value == PostedInvite(newInviteId, projectid, tag.value.text, current.userid, touserid)
  {
    if proj.None? then Err(Http(NOT_FOUND_404))
    else if tag.None? then Err(Http(INTERNAL_SERVER_ERROR_500))
    else if touser.None? then Err(Http(NOT_FOUND_404))
    else if HasRole(touser.value, tag.value.text) then Err(Http(CONFLICT_409))
    else if InvitedTo(inviteList, projectid) then Err(Http(CONFLICT_409))
    else Ok(PostedInvite(newInviteId, projectid, tag.value.text, current.userid, touserid))
  }

  // ---------------------------------------------------------------------------
  // Reading

  /** Who may read an invite: never an unverified account; otherwise an
      admin, the inviter or the invitee. */
  predicate MayReadInvite(u: User, inv: Invite) {
    var allowed := !HasRole(u, "unverified");
    if allowed then HasRole(u, "admin") || inv.byuserid == u.userid || inv.touserid == u.userid else false
  }

  /** `read_proj_invite`. `projectAndTag` is `get_project_and_tag`; the
      handler calls it with the invite's own id rather than its projectid. */
  function ReadProjInvite(current: User, id: int, invite: Option<Invite>,
                          projectAndTag: int -> (Option<Project>, Option<Tag>)): (r: Result<InvitePublic>)
    ensures invite.None? ==> r == Err(Http(NOT_FOUND_404))
    ensures invite.Some? && !MayReadInvite(current, invite.value) ==> r == Err(Http(UNAUTHORIZED_401))
    ensures r.Ok? <==>
      && invite.Some? && MayReadInvite(current, invite.value)
      && projectAndTag(id).0.Some? && projectAndTag(id).1.Some?
    ensures r.Ok? ==>
      var inv := invite.value;
      r.value == InvitePublic(projectAndTag(id).0.value.name, inv.inviteid, inv.projectid,
                              projectAndTag(id).1.value.text, inv.byuserid, inv.touserid, inv.status)
  {
    if invite.None? then Err(Http(NOT_FOUND_404))
    else if !MayReadInvite(current, invite.value) then Err(Http(UNAUTHORIZED_401))
    else
      var (proj, tag) := projectAndTag(id);
      if proj.None? then Err(Http(NOT_FOUND_404))
      else if tag.None? then Err(Http(INTERNAL_SERVER_ERROR_500))
      else
        var inv := invite.value;
        Ok(InvitePublic(proj.value.name, inv.inviteid, inv.projectid, tag.value.text, inv.byuserid, inv.touserid, inv.status))
  }

  /** An unverified account is refused every invite, even its own. */
  lemma ReadInviteUnverifiedDenied(current: User, id: int, invite: Invite,
                                  projectAndTag: int -> (Option<Project>, Option<Tag>))
    requires HasRole(current, "unverified")
    ensures ReadProjInvite(current, id, Some(invite), projectAndTag) == Err(Http(UNAUTHORIZED_401))
  {
  }

  /** Because the project is looked up by the invite id, an answer pairs the
      invite's projectid with the name of whatever project has the invite's
      id, which need not be the invited project. */
  lemma ReadInviteNamesProjectOfInviteId(current: User, id: int, invite: Invite,
                                        projectAndTag: int -> (Option<Project>, Option<Tag>))
    requires ReadProjInvite(current, id, Some(invite), projectAndTag).Ok?
    ensures ReadProjInvite(current, id, Some(invite), projectAndTag).value.projectid == invite.projectid
    ensures ReadProjInvite(current, id, Some(invite), projectAndTag).value.projectname == projectAndTag(id).0.value.name
  {
  }

  // ---------------------------------------------------------------------------
  // Answering

  /** What `update_proj_invite` answers and, on acceptance, the invitee row it
      hands to `put_user`. */
  datatype InviteUpdate = InviteUpdate(inviteid: int, storedUser: Option<User>)

  /** The invitee after accepting: the tag's text appended to their roles. */
  function AcceptedBy(touser: User, tag: string): (u: User)
    ensures u == touser.(roles := u.roles)
    ensures u.roles == touser.roles + " " + tag
    ensures HasRole(u, tag)
  {
    SuffixIsSubstring(touser.roles + " ", tag);
    assert touser.roles + " " + tag == (touser.roles + " ") + tag;
    touser.(roles := touser.roles + " " + tag)
  }

  /** `update_proj_invite`, in the source's order: a status outside 0..2 is
      400 before any lookup; 404 without the invite; 401 unless admin or the
      invitee; 404 without the invitee's row; 409 when the invitee already
      holds the tag; 500 when `put_projInvite` answers another id; status 1
      then appends the tag to the invitee's roles (500 when `put_user`
      answers another id). */
  function UpdateProjInvite(current: User, newStatus: int, invite: Option<Invite>, touser: Option<User>,
                            putInviteId: int, putUserId: int): (r: Result<InviteUpdate>)
    ensures newStatus < 0 || newStatus > 2 ==> r == Err(Http(BAD_REQUEST_400))
    ensures 0 <= newStatus <= 2 && invite.None? ==> r == Err(Http(NOT_FOUND_404))
    ensures 0 <= newStatus <= 2 && invite.Some? && !HasRole(current, "admin") && current.userid != invite.value.touserid
      ==> r == Err(Http(UNAUTHORIZED_401))
    ensures r.Ok? ==>
      && invite.Some? && touser.Some?
      && (HasRole(current, "admin") || current.userid == invite.value.touserid)
      && !HasRole(touser.value, invite.value.tag)
      && r.value.inviteid == invite.value.inviteid
    ensures r.Ok? ==> r.value.storedUser == if newStatus == 1 then Some(AcceptedBy(touser.value, invite.value.tag)) else None
    ensures 0 <= newStatus <= 2 && invite.Some? && (HasRole(current, "admin") || current.userid == invite.value.touserid) ==>
      (touser.None? ==> r == Err(Http(NOT_FOUND_404)))
      && (touser.Some? && HasRole(touser.value, invite.value.tag) ==> r == Err(Http(CONFLICT_409)))
    ensures r.Ok? <==>
      && 0 <= newStatus <= 2 && invite.Some? && touser.Some?
      && (HasRole(current, "admin") || current.userid == invite.value.touserid)
      && !HasRole(touser.value, invite.value.tag)
      && putInviteId == invite.value.inviteid
      && (newStatus == 1 ==> putUserId == touser.value.userid)
  {
    if newStatus < 0 || newStatus > 2 then Err(Http(BAD_REQUEST_400))
    else if invite.None? then Err(Http(NOT_FOUND_404))
    else
      var inv := invite.value;
      if !HasRole(current, "admin") && current.userid != inv.touserid then Err(Http(UNAUTHORIZED_401))
      else if touser.None? then Err(Http(NOT_FOUND_404))
      else if HasRole(touser.value, inv.tag) then Err(Http(CONFLICT_409))
      else if putInviteId != inv.inviteid then Err(Http(INTERNAL_SERVER_ERROR_500))
      else if newStatus == 1 then
        var accepted := AcceptedBy(touser.value, inv.tag);
        if putUserId != accepted.userid then Err(Http(INTERNAL_SERVER_ERROR_500))
        else Ok(InviteUpdate(putInviteId, Some(accepted)))
      else Ok(InviteUpdate(putInviteId, None))
  }

  /** Accepting gives the invitee the tag as a new last role word, and
      afterwards the invitee is a member: answering the invite again is 409,
      and so is inviting them into the project again. */
  lemma AcceptMakesMember(current: User, invite: Invite, touser: User, putInviteId: int, putUserId: int,
                          projectid: int, proj: Project, tag: Tag, inviteList: seq<Invite>, newInviteId: int)
    requires UpdateProjInvite(current, 1, Some(invite), Some(touser), putInviteId, putUserId).Ok?
    requires IsWord(invite.tag) && tag.text == invite.tag
    ensures var u := UpdateProjInvite(current, 1, Some(invite), Some(touser), putInviteId, putUserId).value.storedUser.value;
      && Words(u.roles) == Words(touser.roles) + [invite.tag]
      && (forall s :: 0 <= s <= 2 ==> UpdateProjInvite(current, s, Some(invite), Some(u), putInviteId, putUserId) == Err(Http(CONFLICT_409)))
      && CreateProjInvite(current, projectid, u.userid, Some(proj), Some(tag), Some(u), inviteList, newInviteId) == Err(Http(CONFLICT_409))
  {
    AppendWord(touser.roles, invite.tag);
  }

  // ---------------------------------------------------------------------------
  // Deleting

  /** Who may delete an invite: the invitee, the inviter or an admin. */
  predicate MayDeleteInvite(u: User, inv: Invite) {
    u.userid == inv.touserid || u.userid == inv.byuserid || HasRole(u, "admin")
  }

  /** `delete_proj_invite`: 404 without the invite, 401 unless invitee,
      inviter or admin; answers with the deleted invite. */
  function DeleteProjInvite(current: User, invite: Option<Invite>): (r: Result<Invite>)
    ensures invite.None? <==> r == Err(Http(NOT_FOUND_404))
    ensures r.Ok? <==> invite.Some? && MayDeleteInvite(current, invite.value)
    ensures r.Ok? ==> r.value == invite.value
    ensures r.Err? ==> r.error == Http(NOT_FOUND_404) || r.error == Http(UNAUTHORIZED_401)
  {
    if invite.None? then Err(Http(NOT_FOUND_404))
    else
      var inv := invite.value;
      if current.userid != inv.touserid && current.userid != inv.byuserid && !HasRole(current, "admin") then
        Err(Http(UNAUTHORIZED_401))
      else Ok(inv)
  }

  /** Whoever may read an invite may also delete it; deleting, unlike
      reading, is also allowed to unverified inviters and invitees. */
  lemma ReadersMayDelete(u: User, inv: Invite)
    ensures MayReadInvite(u, inv) ==> MayDeleteInvite(u, inv)
    ensures HasRole(u, "unverified") && (u.userid == inv.byuserid || u.userid == inv.touserid) ==>
      MayDeleteInvite(u, inv) && !MayReadInvite(u, inv)
  {
  }
}
