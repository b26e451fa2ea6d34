/** The project endpoints. Only admins create or delete projects; a new
    project is unpublished, owned by its creator, and has a tag of the same
    name, which is the role that makes a user a member. */
module Projects {
  import opened Results
  import opened Text
  import opened Records
  import opened Users
  import opened Crud

  /** The body of a new project (`ProjectRequest`). */
  datatype ProjectRequest = ProjectRequest(name: string, text: string)

  /** The body of a project update (`ProjectSchema`). */
  datatype ProjectSchema = ProjectSchema(name: string, text: string, userid: int, username: string,
                                         status: string, tagid: int)

  /** `create_project`: 401 for a non-admin before anything else, 409 for a
      name that is not alphanumeric, 409 when a project (`nameTaken`) or a tag
      (`tagTaken`) of that name exists, 500 when `post_tag` gives no id. The
      answer is the posted row with the id `post_project` returns. */
  function CreateProject(current: User, payload: ProjectRequest, nameTaken: bool, tagTaken: bool,
                         postTagId: Option<int>, projectid: int): (r: Result<Project>)
    ensures !HasRole(current, "admin") ==> r == Err(Http(UNAUTHORIZED_401))
    ensures HasRole(current, "admin") && (!IsAlnum(payload.name) || nameTaken || tagTaken)
            ==> r == Err(Http(CONFLICT_409))
    ensures HasRole(current, "admin") && IsAlnum(payload.name) && !nameTaken && !tagTaken && postTagId.None?
            ==> r == Err(Http(INTERNAL_SERVER_ERROR_500))
    ensures r.Ok? <==>
      HasRole(current, "admin") && IsAlnum(payload.name) && !nameTaken && !tagTaken && postTagId.Some?
    ensures r.Ok? ==>
      r.value == Project(projectid, payload.name, payload.text, "unpublished",
                         current.userid, current.username, postTagId.value)
  {
    if !HasRole(current, "admin") then Err(Http(UNAUTHORIZED_401))
    else if !IsAlnum(payload.name) then Err(Http(CONFLICT_409))
    else if nameTaken then Err(Http(CONFLICT_409))
    else if tagTaken then Err(Http(CONFLICT_409))
    else if postTagId.None? then Err(Http(INTERNAL_SERVER_ERROR_500))
    else
      var projPayload := ProjectSchema(payload.name, payload.text, current.userid, current.username,
                                       "unpublished", postTagId.value);
      Ok(Project(projectid, projPayload.name, projPayload.text, projPayload.status,
                 projPayload.userid, projPayload.username, projPayload.tagid))
  }

  /** An alphanumeric name is one role word: it can be stored among a user's roles. */
  lemma {:induction false} AlnumIsWord(name: string)
    requires IsAlnum(name)
    ensures IsWord(name)
  {
    forall i | 0 <= i < |name|
      ensures !IsSpace(name[i])
    {
      if IsDigit(name[i]) {
        DigitNotSpace(name[i]);
      }
    }
  }

  /** A new project is open to its creator and to admins only: members need
      it published first. */
  lemma NewProjectAccess(current: User, payload: ProjectRequest, nameTaken: bool, tagTaken: bool,
                         postTagId: Option<int>, projectid: int, u: User)
    requires CreateProject(current, payload, nameTaken, tagTaken, postTagId, projectid).Ok?
    ensures var p := CreateProject(current, payload, nameTaken, tagTaken, postTagId, projectid).value;
      && IsWord(p.name)
      && HasProjectAccess(current, p)
      && (HasProjectAccess(u, p) <==> HasRole(u, "admin") || u.userid == current.userid)
  {
    AlnumIsWord(payload.name);
  }

  /** `read_project`: 404 without the project, 401 without project access. */
  function ReadProject(current: User, project: Option<Project>): (r: Result<Project>)
    ensures project.None? ==> r == Err(Http(NOT_FOUND_404))
    ensures project.Some? && !HasProjectAccess(current, project.value) ==> r == Err(Http(UNAUTHORIZED_401))
    ensures r.Ok? <==> project.Some? && HasProjectAccess(current, project.value)
    ensures r.Ok? ==> r.value == project.value
  {
    if project.None? then Err(Http(NOT_FOUND_404))
    else if !HasProjectAccess(current, project.value) then Err(Http(UNAUTHORIZED_401))
    else Ok(project.value)
  }

  /** `update_project`: the checks of reading, then the payload stored whole;
      the answer carries the id `put_project` returns. */
  function UpdateProject(current: User, project: Option<Project>, payload: ProjectSchema, putId: int)
    : (r: Result<Project>)
    ensures r.Err? <==> ReadProject(current, project).Err?
    ensures r.Err? ==> r.error == ReadProject(current, project).error
    ensures r.Ok? ==> r.value == Project(putId, payload.name, payload.text, payload.status,
                                         payload.userid, payload.username, payload.tagid)
  {
    if project.None? then Err(Http(NOT_FOUND_404))
    else if !HasProjectAccess(current, project.value) then Err(Http(UNAUTHORIZED_401))
    else Ok(Project(putId, payload.name, payload.text, payload.status, payload.userid, payload.username,
                    payload.tagid))
  }

  /** Project access is all an update checks: any member of a published
      project may make themself its owner, and the project then stays open
      to them whatever its status. */
  lemma MemberMayTakeOwnership(current: User, project: Project, payload: ProjectSchema, putId: int)
    requires HasRole(current, project.name) && project.status == "published"
    requires payload.userid == current.userid
    ensures UpdateProject(current, Some(project), payload, putId).Ok?
    ensures HasProjectAccess(current, UpdateProject(current, Some(project), payload, putId).value)
  {
  }

  /** `delete_project`: 401 for a non-admin before the lookup, then 404
      without the project; the deleted project is the answer. */
  function DeleteProject(current: User, project: Option<Project>): (r: Result<Project>)
    ensures !HasRole(current, "admin") ==> r == Err(Http(UNAUTHORIZED_401))
    ensures HasRole(current, "admin") && project.None? ==> r == Err(Http(NOT_FOUND_404))
    ensures r.Ok? <==> HasRole(current, "admin") && project.Some?
    ensures r.Ok? ==> r.value == project.value
  {
    if !HasRole(current, "admin") then Err(Http(UNAUTHORIZED_401))
    else if project.None? then Err(Http(NOT_FOUND_404))
    else Ok(project.value)
  }

  /** A non-admin learns nothing from deleting: the answer is the same
      whether or not the project exists. */
  lemma DeleteProjectHidesExistence(current: User, p1: Option<Project>, p2: Option<Project>)
    requires !HasRole(current, "admin")
    ensures DeleteProject(current, p1) == DeleteProject(current, p2)
  {
  }
}
