/** The access predicates and the filtered listings of the database layer. */
module Crud {
  import opened Results
  import opened Text
  import opened Records
  import opened Users
  import opened Lists

  // ---------------------------------------------------------------------------
  // Projects

  /** `user_has_project_access`: admins and the project's owner are allowed;
      anyone else needs the project name as a role and a published project.
      Several handlers pass the project tag as a third argument; the
      definition takes two and the tag plays no part. */
  predicate HasProjectAccess(u: User, p: Project) {
    var allowed := HasRole(u, "admin") || u.userid == p.userid;
    if !allowed then HasRole(u, p.name) && p.status == "published" else allowed
  }

  /** Admins and owners always have access to a project. */
  lemma ProjectAccessAdminOrOwner(u: User, p: Project)
    requires HasRole(u, "admin") || u.userid == p.userid
    ensures HasProjectAccess(u, p)
  {
  }

  /** For everyone else, access is membership of a published project. */
  lemma ProjectAccessOthers(u: User, p: Project)
    requires !HasRole(u, "admin") && u.userid != p.userid
    ensures HasProjectAccess(u, p) <==> HasRole(u, p.name) && p.status == "published"
  {
  }

  function ProjectAccessOf(u: User): Project -> bool {
    p => HasProjectAccess(u, p)
  }

  /** The checks the project-scoped handlers repeat before acting: 404
      without the project, 500 without its tag, 401 without project access.
      Passing yields the tag. */
  function ProjectGuard(u: User, proj: Option<Project>, tag: Option<Tag>): (r: Result<Tag>)
    ensures proj.None? ==> r == Err(Http(NOT_FOUND_404))
    ensures proj.Some? && tag.None? ==> r == Err(Http(INTERNAL_SERVER_ERROR_500))
    ensures proj.Some? && tag.Some? && !HasProjectAccess(u, proj.value) ==> r == Err(Http(UNAUTHORIZED_401))
    ensures r.Ok? <==> proj.Some? && tag.Some? && HasProjectAccess(u, proj.value)
    ensures r.Ok? ==> r.value == tag.value
  {
    if proj.None? then Err(Http(NOT_FOUND_404))
    else if tag.None? then Err(Http(INTERNAL_SERVER_ERROR_500))
    else if !HasProjectAccess(u, proj.value) then Err(Http(UNAUTHORIZED_401))
    else Ok(tag.value)
  }

  /** A project-scoped read of one row: 404 without the row, then the guard
      of its project. */
  function GuardedRead<T>(u: User, item: Option<T>, proj: Option<Project>, tag: Option<Tag>): (r: Result<T>)
    ensures item.None? ==> r == Err(Http(NOT_FOUND_404))
    ensures item.Some? ==> (r.Err? <==> ProjectGuard(u, proj, tag).Err?)
    ensures item.Some? && r.Err? ==> r.error == ProjectGuard(u, proj, tag).error
    ensures r.Ok? ==> r == Ok(item.value)
  {
    if item.None? then Err(Http(NOT_FOUND_404))
    else
      var g := ProjectGuard(u, proj, tag);
      if g.Err? then Err(g.error) else Ok(item.value)
  }

  /** A project-scoped listing: the guard of the project, then the rows as stored. */
  function GuardedList<T>(u: User, proj: Option<Project>, tag: Option<Tag>, rows: seq<T>): (r: Result<seq<T>>)
    ensures r.Err? <==> ProjectGuard(u, proj, tag).Err?
    ensures r.Err? ==> r.error == ProjectGuard(u, proj, tag).error
    ensures r.Ok? ==> r.value == rows
  {
    var g := ProjectGuard(u, proj, tag);
    if g.Err? then Err(g.error) else Ok(rows)
  }

  /** The same checks as the handlers write them: they call
      `user_has_project_access` with the project and the tag, but it takes
      only the user and the project, so once both are found the call raises
      TypeError. */
  function ProjectGuardAsWritten(u: User, proj: Option<Project>, tag: Option<Tag>): (r: Result<Tag>)
    ensures proj.None? ==> r == Err(Http(NOT_FOUND_404))
    ensures proj.Some? && tag.None? ==> r == Err(Http(INTERNAL_SERVER_ERROR_500))
    ensures proj.Some? && tag.Some? ==> r == Err(Raised("TypeError"))
  {
    if proj.None? then Err(Http(NOT_FOUND_404))
    else if tag.None? then Err(Http(INTERNAL_SERVER_ERROR_500))
    else Err(Raised("TypeError"))
  }

  /** The project's own author passes the guard with two arguments, and the
      guard as written refuses them with TypeError. */
  lemma ProjectGuardAsWrittenRefusesAuthor(u: User, p: Project, t: Tag)
    requires p.userid == u.userid
    ensures ProjectGuard(u, Some(p), Some(t)) == Ok(t)
    ensures ProjectGuardAsWritten(u, Some(p), Some(t)) == Err(Raised("TypeError"))
  {
  }

  /** The projects `get_all_projects` returns out of `ps`, the rows ordered by projectid. */
  function AccessibleProjects(u: User, ps: seq<Project>): seq<Project> {
    Filter(ps, ProjectAccessOf(u))
  }

  /** `get_all_projects`: the filter loop over the ordered project rows. */
  method GetAllProjects(u: User, ps: seq<Project>) returns (finalList: seq<Project>)
    ensures finalList == AccessibleProjects(u, ps)
  {
    finalList := [];
    for i := 0 to |ps|
      invariant finalList == AccessibleProjects(u, ps[..i])
    {
      assert ps[..i + 1] == ps[..i] + [ps[i]];
      FilterSnoc(ps[..i], ps[i], ProjectAccessOf(u));
      if HasProjectAccess(u, ps[i]) {
        finalList := finalList + [ps[i]];
      }
    }
    assert ps[..|ps|] == ps;
  }

  /** A project is listed exactly when it is among the rows and accessible. */
  lemma AccessibleProjectsExactly(u: User, ps: seq<Project>, p: Project)
    ensures p in AccessibleProjects(u, ps) <==> p in ps && HasProjectAccess(u, p)
  {
    FilterMembers(ps, ProjectAccessOf(u), p);
  }

  /** The listing keeps the row order: listing two runs of rows is listing each in turn. */
  lemma AccessibleProjectsInOrder(u: User, a: seq<Project>, b: seq<Project>)
    ensures AccessibleProjects(u, a + b) == AccessibleProjects(u, a) + AccessibleProjects(u, b)
  {
    FilterAppend(a, b, ProjectAccessOf(u));
  }

  // ---------------------------------------------------------------------------
  // Memos

  /** `user_has_memo_access`: admins and the memo's author are allowed; anyone
      else needs a published memo whose access is "public" or is a substring
      of their roles. */
  predicate HasMemoAccess(u: User, m: Memo) {
    var allowed := HasRole(u, "admin") || u.userid == m.userid;
    if !allowed then
      m.status == "published" && (m.access == "public" || IsSubstring(m.access, u.roles))
    else allowed
  }

  /** Admins and authors always have access to a memo. */
  lemma MemoAccessAdminOrAuthor(u: User, m: Memo)
    requires HasRole(u, "admin") || u.userid == m.userid
    ensures HasMemoAccess(u, m)
  {
  }

  /** For everyone else, the memo must be published and public or shared with one of their roles. */
  lemma MemoAccessOthers(u: User, m: Memo)
    requires !HasRole(u, "admin") && u.userid != m.userid
    ensures HasMemoAccess(u, m) <==> m.status == "published" && (m.access == "public" || IsSubstring(m.access, u.roles))
  {
  }

  function MemoAccessOf(u: User): Memo -> bool {
    m => HasMemoAccess(u, m)
  }

  /** The title mark `get_all_memos` gives an unpublished memo; nothing else changes. */
  function MarkUnpublished(m: Memo): (r: Memo)
    ensures r.title == if m.status == "unpublished" then m.title + " (unpublished)" else m.title
    ensures r == m.(title := r.title)
  {
    if m.status == "unpublished" then m.(title := m.title + " (unpublished)") else m
  }

  /** The memos `get_all_memos` returns out of `ms`, the rows ordered by memoid. */
  function VisibleMemos(u: User, ms: seq<Memo>): seq<Memo> {
    Map(Filter(ms, MemoAccessOf(u)), MarkUnpublished)
  }

  lemma VisibleMemosSnoc(u: User, ms: seq<Memo>, m: Memo)
    ensures VisibleMemos(u, ms + [m]) == VisibleMemos(u, ms) + (if HasMemoAccess(u, m) then [MarkUnpublished(m)] else [])
  {
    FilterSnoc(ms, m, MemoAccessOf(u));
    if HasMemoAccess(u, m) {
      MapSnoc(Filter(ms, MemoAccessOf(u)), m, MarkUnpublished);
    }
  }

  /** `get_all_memos`: the filter loop, marking each unpublished memo as it is kept. */
  method GetAllMemos(u: User, ms: seq<Memo>) returns (finalMemoList: seq<Memo>)
    ensures finalMemoList == VisibleMemos(u, ms)
  {
    finalMemoList := [];
    for i := 0 to |ms|
      invariant finalMemoList == VisibleMemos(u, ms[..i])
    {
      assert ms[..i + 1] == ms[..i] + [ms[i]];
      VisibleMemosSnoc(u, ms[..i], ms[i]);
      var m := ms[i];
      if HasMemoAccess(u, m) {
        if m.status == "unpublished" {
          m := m.(title := m.title + " (unpublished)");
        }
        finalMemoList := finalMemoList + [m];
      }
    }
    assert ms[..|ms|] == ms;
  }

  /** Every accessible memo is listed, marked; every listed memo is an accessible row, marked. */
  lemma VisibleMemosExactly(u: User, ms: seq<Memo>)
    ensures forall m :: m in ms && HasMemoAccess(u, m) ==> MarkUnpublished(m) in VisibleMemos(u, ms)
    ensures forall r :: r in VisibleMemos(u, ms) ==> exists m :: m in ms && HasMemoAccess(u, m) && r == MarkUnpublished(m)
  {
    var kept := Filter(ms, MemoAccessOf(u));
    forall m | m in ms && HasMemoAccess(u, m)
      ensures MarkUnpublished(m) in VisibleMemos(u, ms)
    {
      FilterMembers(ms, MemoAccessOf(u), m);
      var j :| 0 <= j < |kept| && kept[j] == m;
      assert VisibleMemos(u, ms)[j] == MarkUnpublished(m);
    }
    forall r | r in VisibleMemos(u, ms)
      ensures exists m :: m in ms && HasMemoAccess(u, m) && r == MarkUnpublished(m)
    {
      var j :| 0 <= j < |VisibleMemos(u, ms)| && VisibleMemos(u, ms)[j] == r;
      FilterMembers(ms, MemoAccessOf(u), kept[j]);
      assert kept[j] in kept;
    }
  }

  /** The memo listing keeps the row order. */
  lemma VisibleMemosInOrder(u: User, a: seq<Memo>, b: seq<Memo>)
    ensures VisibleMemos(u, a + b) == VisibleMemos(u, a) + VisibleMemos(u, b)
  {
    FilterAppend(a, b, MemoAccessOf(u));
    MapAppend(Filter(a, MemoAccessOf(u)), Filter(b, MemoAccessOf(u)), MarkUnpublished);
  }

  /** The test of `get_all_public_memos`: access exactly "public" and status exactly "published". */
  predicate IsPublicMemo(m: Memo) {
    "public" == m.access && "published" == m.status
  }

  function PublicMemoOf(): Memo -> bool {
    m => IsPublicMemo(m)
  }

  /** The memos `get_all_public_memos` returns out of `ms`. */
  function PublicMemos(ms: seq<Memo>): seq<Memo> {
    Filter(ms, PublicMemoOf())
  }

  /** `get_all_public_memos`: the filter loop over the ordered memo rows. */
  method GetAllPublicMemos(ms: seq<Memo>) returns (finalMemoList: seq<Memo>)
    ensures finalMemoList == PublicMemos(ms)
  {
    finalMemoList := [];
    for i := 0 to |ms|
      invariant finalMemoList == PublicMemos(ms[..i])
    {
      assert ms[..i + 1] == ms[..i] + [ms[i]];
      FilterSnoc(ms[..i], ms[i], PublicMemoOf());
      if "public" == ms[i].access && "published" == ms[i].status {
        finalMemoList := finalMemoList + [ms[i]];
      }
    }
    assert ms[..|ms|] == ms;
  }

  /** A memo is listed publicly exactly when it is public and published; order is kept. */
  lemma PublicMemosExactly(ms: seq<Memo>, m: Memo)
    ensures m in PublicMemos(ms) <==> m in ms && m.access == "public" && m.status == "published"
    ensures forall a, b :: PublicMemos(a + b) == PublicMemos(a) + PublicMemos(b)
  {
    FilterMembers(ms, PublicMemoOf(), m);
    forall a, b ensures PublicMemos(a + b) == PublicMemos(a) + PublicMemos(b) {
      FilterAppend(a, b, PublicMemoOf());
    }
  }

  /** A public, published memo is visible to every user. */
  lemma PublicMemoVisibleToAll(u: User, m: Memo)
    requires IsPublicMemo(m)
    ensures HasMemoAccess(u, m)
  {
  }

  // ---------------------------------------------------------------------------
  // Comments

  /** `get_all_memo_comments`: copies each fetched row into a new record,
      field by field; the result is the rows themselves, in row order. */
  method GetAllMemoComments(rows: seq<Comment>) returns (finalCommList: seq<Comment>)
    ensures finalCommList == rows
  {
    finalCommList := [];
    for i := 0 to |rows|
      invariant finalCommList == rows[..i]
    {
      var c := rows[i];
      var fullComm := Comment(c.commid, c.text, c.memoid, c.userid, c.username, c.parent);
      finalCommList := finalCommList + [fullComm];
    }
  }
}
