/** The upload endpoints: who may upload or list general and project files,
    and the file descriptions of a directory listing. The directory is the
    list of paths `glob` returns; `os.path.isfile` and the MIME lookup are
    parameters, and writing the uploaded bytes is a parameter saying whether
    the write succeeded. */
module Upload {
  import opened Results
  import opened Text
  import opened Records
  import opened Users
  import opened Lists

  /** One entry of a listing: `{"filename", "type", "link"}`. */
  datatype FileDesc = FileDesc(filename: string, fileType: string, link: string)

  // ---------------------------------------------------------------------------
  // General uploads

  /** The general upload area is open to admin and staff. */
  predicate MayUseGeneralUploads(u: User) {
    HasRole(u, "admin") || HasRole(u, "staff")
  }

  /** `upload`: 403 unless admin or staff; a failed write is still answered
      normally, with an error message. */
  function UploadFile(current: User, filename: string, writeOk: bool): (r: Result<string>)
    ensures r.Err? <==> !MayUseGeneralUploads(current)
    ensures r.Err? ==> r.error == Http(FORBIDDEN_403)
    ensures r.Ok? && writeOk ==> r.value == "Successfully uploaded " + filename
    ensures r.Ok? && !writeOk ==> r.value == "There was an error uploading the file"
  {
    if !MayUseGeneralUploads(current) then Err(Http(FORBIDDEN_403))
    else if writeOk then Ok("Successfully uploaded " + filename)
    else Ok("There was an error uploading the file")
  }

  // ---------------------------------------------------------------------------
  // Listings

  /** The file name of a path: its last '/'-separated piece. */
  function FileName(path: string): (name: string)
    ensures '/' !in name
  {
    LastPieceIsSuffix(path, '/');
    LastPiece(path, '/')
  }

  /** The description of the file at `path`, linked under `linkPrefix`. */
  function Describe(path: string, fileType: string -> string, linkPrefix: string): FileDesc {
    var name := FileName(path);
    FileDesc(name, fileType(path), linkPrefix + name)
  }

  function DescribeWith(fileType: string -> string, linkPrefix: string): string -> FileDesc {
    path => Describe(path, fileType, linkPrefix)
  }

  /** The listing of `paths`: one description per regular file, in glob order. */
  function Listing(paths: seq<string>, isFile: string -> bool, fileType: string -> string, linkPrefix: string): seq<FileDesc> {
    Map(Filter(paths, isFile), DescribeWith(fileType, linkPrefix))
  }

  /** The listing loop of `read_all_uploads` and `read_all_project_uploads`. */
  method ListFiles(paths: seq<string>, isFile: string -> bool, fileType: string -> string, linkPrefix: string)
    returns (ret: seq<FileDesc>)
    ensures ret == Listing(paths, isFile, fileType, linkPrefix)
  {
    ret := [];
    for i := 0 to |paths|
      invariant ret == Listing(paths[..i], isFile, fileType, linkPrefix)
    {
      var longPath := paths[i];
      assert paths[..i + 1] == paths[..i] + [longPath];
      FilterSnoc(paths[..i], longPath, isFile);
      if isFile(longPath) {
        var filename := FileName(longPath);
        var link := linkPrefix + filename;
        MapSnoc(Filter(paths[..i], isFile), longPath, DescribeWith(fileType, linkPrefix));
        ret := ret + [FileDesc(filename, fileType(longPath), link)];
      }
    }
    assert paths[..|paths|] == paths;
  }

  /** Every listed entry describes a regular file of the directory: its name
      is the path's last piece, holds no '/', ends the path, and the link is
      the prefix followed by the name; every regular file is listed. */
  lemma ListingEntries(paths: seq<string>, isFile: string -> bool, fileType: string -> string, linkPrefix: string)
    ensures var files := Filter(paths, isFile);
      && |Listing(paths, isFile, fileType, linkPrefix)| == |files|
      && forall i :: 0 <= i < |files| ==>
           var d := Listing(paths, isFile, fileType, linkPrefix)[i];
           && files[i] in paths && isFile(files[i])
           && d.filename == LastPiece(files[i], '/')
           && '/' !in d.filename
           && (exists k :: 0 <= k <= |files[i]| && files[i][k..] == d.filename)
           && d.link == linkPrefix + d.filename
           && d.fileType == fileType(files[i])
    ensures forall p :: p in paths && isFile(p) ==> p in Filter(paths, isFile)
  {
    var files := Filter(paths, isFile);
    forall i | 0 <= i < |files|
      ensures files[i] in paths && isFile(files[i])
      ensures exists k :: 0 <= k <= |files[i]| && files[i][k..] == LastPiece(files[i], '/')
    {
      FilterMembers(paths, isFile, files[i]);
      LastPieceIsSuffix(files[i], '/');
    }
    forall p | p in paths && isFile(p)
      ensures p in files
    {
      FilterMembers(paths, isFile, p);
    }
  }

  const GeneralLinkPrefix := "/static/uploads/"

  /** `read_all_uploads`: 403 unless admin or staff, else the listing linked under /static/uploads/. */
  function ReadAllUploads(current: User, paths: seq<string>, isFile: string -> bool, fileType: string -> string)
    : (r: Result<seq<FileDesc>>)
    ensures r.Err? <==> !MayUseGeneralUploads(current)
    ensures r.Err? ==> r.error == Http(FORBIDDEN_403)
    ensures r.Ok? ==> r.value == Listing(paths, isFile, fileType, GeneralLinkPrefix)
  {
    if !MayUseGeneralUploads(current) then Err(Http(FORBIDDEN_403))
    else Ok(Listing(paths, isFile, fileType, GeneralLinkPrefix))
  }

  // ---------------------------------------------------------------------------
  // Project files

  /** `project_upload`: 404 without the project; 409 for an archived project,
      before the tag is fetched; 500 without the tag; then the caller must be
      an admin or a member (403), and an unpublished project also needs an
      admin or its owner (403). */
  function ProjectUpload(current: User, proj: Option<Project>, tag: Option<Tag>, filename: string, writeOk: bool)
    : (r: Result<string>)
    ensures proj.None? <==> r == Err(Http(NOT_FOUND_404))
    ensures proj.Some? && proj.value.status == "archived" <==> r == Err(Http(CONFLICT_409))
    ensures r.Ok? <==>
      && proj.Some? && proj.value.status != "archived" && tag.Some?
      && (HasRole(current, "admin") || HasRole(current, tag.value.text))
      && (proj.value.status == "unpublished" ==> HasRole(current, "admin") || current.userid == proj.value.userid)
    ensures r.Ok? && writeOk ==> r.value == "Successfully uploaded " + tag.value.text + " " + filename
    ensures r.Ok? && !writeOk ==> r.value == "There was an error uploading the file"
  {
    if proj.None? then Err(Http(NOT_FOUND_404))
    else if proj.value.status == "archived" then Err(Http(CONFLICT_409))
    else if tag.None? then Err(Http(INTERNAL_SERVER_ERROR_500))
    else
      var isAdmin := HasRole(current, "admin");
      var isProjMember := HasRole(current, tag.value.text);
      if !isAdmin && !isProjMember then Err(Http(FORBIDDEN_403))
      else if proj.value.status == "unpublished" && !isAdmin && current.userid != proj.value.userid then Err(Http(FORBIDDEN_403))
      else if proj.value.status == "published" && !isAdmin && !isProjMember then Err(Http(FORBIDDEN_403))
      else if writeOk then Ok("Successfully uploaded " + tag.value.text + " " + filename)
      else Ok("There was an error uploading the file")
  }

  /** The guard shared by `read_all_project_uploads` and `get_project_file`:
      404 without the project, 500 without its tag, then 403 unless admin or
      member, an archived project only for admins, an unpublished one only for
      admins and its owner. */
  function ProjectFileGuard(current: User, proj: Option<Project>, tag: Option<Tag>): (r: Result<(Project, Tag)>)
    ensures proj.None? <==> r == Err(Http(NOT_FOUND_404))
    ensures proj.Some? && tag.None? <==> r == Err(Http(INTERNAL_SERVER_ERROR_500))
    ensures r.Ok? <==>
      && proj.Some? && tag.Some?
      && (HasRole(current, "admin") || HasRole(current, tag.value.text))
      && (proj.value.status == "archived" ==> HasRole(current, "admin"))
      && (proj.value.status == "unpublished" ==> HasRole(current, "admin") || current.userid == proj.value.userid)
    ensures r.Ok? ==> r.value == (proj.value, tag.value)
    ensures r.Err? ==> r.error in {Http(NOT_FOUND_404), Http(INTERNAL_SERVER_ERROR_500), Http(FORBIDDEN_403)}
  {
    if proj.None? then Err(Http(NOT_FOUND_404))
    else if tag.None? then Err(Http(INTERNAL_SERVER_ERROR_500))
    else
      var p, t := proj.value, tag.value;
      var isAdmin := HasRole(current, "admin");
      var isProjMember := HasRole(current, t.text);
      if !isAdmin && !isProjMember then Err(Http(FORBIDDEN_403))
      else if p.status == "archived" && !isAdmin then Err(Http(FORBIDDEN_403))
      else if p.status == "unpublished" && !isAdmin && current.userid != p.userid then Err(Http(FORBIDDEN_403))
      else if p.status == "published" && !isAdmin && !isProjMember then Err(Http(FORBIDDEN_403))
      else Ok((p, t))
  }

  /** The link prefix of a project's files. */
  function ProjectLinkPrefix(projectid: int): string {
    "/upload/projectFile/" + IntToString(projectid) + "/"
  }

  /** `read_all_project_uploads`: the guard, then the listing of the project's
      directory linked under /upload/projectFile/<projectid>/. */
  function ReadAllProjectUploads(current: User, proj: Option<Project>, tag: Option<Tag>,
                                 paths: seq<string>, isFile: string -> bool, fileType: string -> string)
    : (r: Result<seq<FileDesc>>)
    ensures r.Err? <==> ProjectFileGuard(current, proj, tag).Err?
    ensures r.Err? ==> r.error == ProjectFileGuard(current, proj, tag).error
    ensures r.Ok? ==> r.value == Listing(paths, isFile, fileType, ProjectLinkPrefix(proj.value.projectid))
  {
    var g := ProjectFileGuard(current, proj, tag);
    if g.Err? then Err(g.error)
    else Ok(Listing(paths, isFile, fileType, ProjectLinkPrefix(g.value.0.projectid)))
  }

  /** A project listing's links are "/upload/projectFile/" + projectid + "/" + filename. */
  lemma ProjectListingLinks(current: User, proj: Option<Project>, tag: Option<Tag>,
                            paths: seq<string>, isFile: string -> bool, fileType: string -> string)
    requires ReadAllProjectUploads(current, proj, tag, paths, isFile, fileType).Ok?
    ensures var ds := ReadAllProjectUploads(current, proj, tag, paths, isFile, fileType).value;
      forall i :: 0 <= i < |ds| ==>
        && ds[i].link == "/upload/projectFile/" + IntToString(proj.value.projectid) + "/" + ds[i].filename
        && '/' !in ds[i].filename
  {
    ListingEntries(paths, isFile, fileType, ProjectLinkPrefix(proj.value.projectid));
  }

  /** `get_project_file`: the guard, then the file's path below the base path. */
  function GetProjectFile(current: User, proj: Option<Project>, tag: Option<Tag>, filename: string): (r: Result<string>)
    ensures r.Err? <==> ProjectFileGuard(current, proj, tag).Err?
    ensures r.Err? ==> r.error == ProjectFileGuard(current, proj, tag).error
    ensures r.Ok? ==> r.value == "uploads/" + tag.value.text + "/" + filename
  {
    var g := ProjectFileGuard(current, proj, tag);
    if g.Err? then Err(g.error) else Ok("uploads/" + g.value.1.text + "/" + filename)
  }

  /** Listing a project's files and downloading one of them are allowed to the same callers. */
  lemma ListAndDownloadAgree(current: User, proj: Option<Project>, tag: Option<Tag>,
                             paths: seq<string>, isFile: string -> bool, fileType: string -> string, filename: string)
    ensures ReadAllProjectUploads(current, proj, tag, paths, isFile, fileType).Ok? <==>
            GetProjectFile(current, proj, tag, filename).Ok?
  {
  }

  /** An owner who is not a member never gets past the membership check, even
      on their own unpublished project; a member who is not the owner cannot
      reach an unpublished project. */
  lemma ProjectUploadNeedsMembershipAndOwnership(current: User, p: Project, t: Tag, filename: string, writeOk: bool)
    requires p.status == "unpublished" && !HasRole(current, "admin")
    ensures ProjectUpload(current, Some(p), Some(t), filename, writeOk).Ok? <==>
      HasRole(current, t.text) && current.userid == p.userid
  {
  }
}
