/** The memo endpoints: a memo is always tagged with its project's tag, keeps
    its author across updates, and is changed or deleted only by its author or
    an admin; deleting one deletes its comments first. */
module Memos {
  import opened Results
  import opened Text
  import opened Records
  import opened Users
  import opened Crud
  import opened Lists

  /** The body of a memo request (`MemoSchema` with the project id the handlers read). */
  datatype MemoPayload = MemoPayload(
    title: string,
    text: string,
    status: string,
    tags: string,
    access: string,
    userid: int,
    username: string,
    projectid: int)

  /** The tags after `if not tag.text in tags: tags += ' ' + tag.text`. */
  function WithProjectTag(tags: string, tagText: string): (r: string)
    ensures IsSubstring(tagText, r)
    ensures IsSubstring(tagText, tags) ==> r == tags
    ensures !IsSubstring(tagText, tags) ==> r == tags + " " + tagText
    ensures StartsWith(r, tags)
  {
    if IsSubstring(tagText, tags) then tags
    else
      SuffixIsSubstring(tags + " ", tagText);
      assert (tags + " " + tagText)[..|tags|] == tags;
      tags + " " + tagText
  }

  /** Tagging twice is tagging once. */
  lemma WithProjectTagIdempotent(tags: string, tagText: string)
    ensures WithProjectTag(WithProjectTag(tags, tagText), tagText) == WithProjectTag(tags, tagText)
  {
  }

  /** A missing tag is added as one more space-separated word after the old tags. */
  lemma WithProjectTagAddsWord(tags: string, tagText: string)
    requires IsWord(tagText) && !IsSubstring(tagText, tags)
    ensures WithProjectTag(tags, tagText) == tags + " " + tagText
    ensures Words(WithProjectTag(tags, tagText)) == Words(tags) + [tagText]
  {
    AppendWord(tags, tagText);
  }

  /** The memo the handlers answer with, built from the payload. */
  function Response(memoid: int, payload: MemoPayload): Memo {
    Memo(memoid, payload.title, payload.text, payload.status, payload.tags, payload.access,
         payload.userid, payload.username, payload.projectid)
  }

  /** `create_memo`: the project guard, then the payload tagged with the
      project tag; the answer carries the id `post_memo` returns and the
      author the payload names. */
  function CreateMemo(current: User, payload: MemoPayload, proj: Option<Project>, tag: Option<Tag>, postId: int)
    : (r: Result<Memo>)
    ensures r.Err? <==> ProjectGuard(current, proj, tag).Err?
    ensures r.Err? ==> r.error == ProjectGuard(current, proj, tag).error
    ensures r.Ok? ==> r.value == Response(postId, payload.(tags := WithProjectTag(payload.tags, tag.value.text)))
    ensures r.Ok? ==> IsSubstring(tag.value.text, r.value.tags) && StartsWith(r.value.tags, payload.tags)
  {
    var g := ProjectGuard(current, proj, tag);
    if g.Err? then Err(g.error)
    else
      var tagged := payload.(tags := WithProjectTag(payload.tags, g.value.text));
      Ok(Response(postId, tagged))
  }

  /** `read_memo` with the access test called rather than awaited: 404
      without the memo, 401 without memo access. */
  function ReadMemo(current: User, memo: Option<Memo>): (r: Result<Memo>)
    ensures memo.None? ==> r == Err(Http(NOT_FOUND_404))
    ensures memo.Some? && !HasMemoAccess(current, memo.value) ==> r == Err(Http(UNAUTHORIZED_401))
    ensures r.Ok? <==> memo.Some? && HasMemoAccess(current, memo.value)
    ensures r.Ok? ==> r.value == memo.value
  {
    if memo.None? then Err(Http(NOT_FOUND_404))
    else if !HasMemoAccess(current, memo.value) then Err(Http(UNAUTHORIZED_401))
    else Ok(memo.value)
  }

  /** `read_memo` as written: it awaits `user_has_memo_access`, which is a
      plain function answering a bool, and awaiting a bool raises TypeError,
      so every memo that exists ends in TypeError. */
  function ReadMemoAsWritten(current: User, memo: Option<Memo>): (r: Result<Memo>)
    ensures memo.None? ==> r == Err(Http(NOT_FOUND_404))
    ensures memo.Some? ==> r == Err(Raised("TypeError"))
  {
    if memo.None? then Err(Http(NOT_FOUND_404))
    else Err(Raised("TypeError"))
  }

  /** The memo's own author is refused by `read_memo` as written, while the
      access test alone lets them read it. */
  lemma ReadMemoAsWrittenRefusesAuthor(current: User, memo: Memo)
    requires memo.userid == current.userid
    ensures ReadMemoAsWritten(current, Some(memo)) == Err(Raised("TypeError"))
    ensures ReadMemo(current, Some(memo)) == Ok(memo)
  {
    MemoAccessAdminOrAuthor(current, memo);
  }

  /** The author test of `update_memo` and `delete_memo`. */
  predicate MayChangeMemo(u: User, m: Memo) {
    m.userid == u.userid || HasRole(u, "admin")
  }

  /** `update_memo`: 404 without the memo, the guard of the memo's project,
      then 401 unless the caller is the author or an admin. The payload is
      tagged and given the stored memo's author; the answer carries the id
      `put_memo` returns. */
  function UpdateMemo(current: User, memo: Option<Memo>, payload: MemoPayload, proj: Option<Project>,
                      tag: Option<Tag>, putId: int): (r: Result<Memo>)
    ensures memo.None? ==> r == Err(Http(NOT_FOUND_404))
    ensures memo.Some? && ProjectGuard(current, proj, tag).Err? ==> r == Err(ProjectGuard(current, proj, tag).error)
    ensures memo.Some? && ProjectGuard(current, proj, tag).Ok? && !MayChangeMemo(current, memo.value)
            ==> r == Err(Http(UNAUTHORIZED_401))
    ensures r.Ok? <==> memo.Some? && ProjectGuard(current, proj, tag).Ok? && MayChangeMemo(current, memo.value)
    ensures r.Ok? ==>
      && r.value.userid == memo.value.userid && r.value.username == memo.value.username
      && r.value == Response(putId, payload.(tags := WithProjectTag(payload.tags, tag.value.text),
                                             userid := memo.value.userid, username := memo.value.username))
  {
    if memo.None? then Err(Http(NOT_FOUND_404))
    else
      var g := ProjectGuard(current, proj, tag);
      if g.Err? then Err(g.error)
      else if memo.value.userid != current.userid && !HasRole(current, "admin") then Err(Http(UNAUTHORIZED_401))
      else
        var p := payload.(tags := WithProjectTag(payload.tags, g.value.text));
        var p := p.(userid := memo.value.userid, username := memo.value.username);
        Ok(Response(putId, p))
  }

  /** The author survives an update whatever the payload says. */
  lemma UpdateKeepsAuthor(current: User, memo: Memo, payload1: MemoPayload, payload2: MemoPayload,
                          proj: Option<Project>, tag: Option<Tag>, putId: int)
    requires UpdateMemo(current, Some(memo), payload1, proj, tag, putId).Ok?
    requires payload2 == payload1.(userid := payload2.userid, username := payload2.username)
    ensures UpdateMemo(current, Some(memo), payload2, proj, tag, putId)
            == UpdateMemo(current, Some(memo), payload1, proj, tag, putId)
  {
  }

  /** Whoever may change or delete a memo may also read it. */
  lemma ChangersMayRead(current: User, memo: Memo)
    requires MayChangeMemo(current, memo)
    ensures ReadMemo(current, Some(memo)) == Ok(memo)
  {
    MemoAccessAdminOrAuthor(current, memo);
  }

  /** One step of the deletion `delete_memo` performs. */
  datatype Deletion = CommentDeleted(commid: int) | MemoDeleted(memoid: int)

  function CommentDeletion(): Comment -> Deletion {
    (c: Comment) => CommentDeleted(c.commid)
  }

  /** The deletions of a memo and its comments: each comment in turn, then the memo. */
  function Cascade(id: int, memoComments: seq<Comment>): seq<Deletion> {
    Map(memoComments, CommentDeletion()) + [MemoDeleted(id)]
  }

  /** Every comment of the memo is deleted, and before the memo; the memo is deleted last and once. */
  lemma CascadeDeletesCommentsFirst(id: int, memoComments: seq<Comment>)
    ensures var d := Cascade(id, memoComments);
      && |d| == |memoComments| + 1
      && d[|d| - 1] == MemoDeleted(id)
      && (forall i :: 0 <= i < |d| - 1 ==> d[i] == CommentDeleted(memoComments[i].commid))
      && (forall c :: c in memoComments ==> exists i :: 0 <= i < |d| - 1 && d[i] == CommentDeleted(c.commid))
  {
    var d := Cascade(id, memoComments);
    forall c | c in memoComments
      ensures exists i :: 0 <= i < |d| - 1 && d[i] == CommentDeleted(c.commid)
    {
      var i :| 0 <= i < |memoComments| && memoComments[i] == c;
      assert d[i] == CommentDeleted(c.commid);
    }
  }

  /** `delete_memo`: 404 without the memo, 401 unless the caller is the
      author or an admin (the project is not consulted); then each comment
      `get_all_memo_comments` lists is deleted, then the memo, which is the
      answer. `deletions` records the deletions in the order they are made. */
  method DeleteMemo(current: User, id: int, memo: Option<Memo>, memoComments: seq<Comment>)
    returns (r: Result<Memo>, deletions: seq<Deletion>)
    ensures memo.None? ==> r == Err(Http(NOT_FOUND_404)) && deletions == []
    ensures memo.Some? && !MayChangeMemo(current, memo.value) ==> r == Err(Http(UNAUTHORIZED_401)) && deletions == []
    ensures r.Ok? <==> memo.Some? && MayChangeMemo(current, memo.value)
    ensures r.Ok? ==> r.value == memo.value && deletions == Cascade(id, memoComments)
  {
    if memo.None? {
      return Err(Http(NOT_FOUND_404)), [];
    }
    if memo.value.userid != current.userid && !HasRole(current, "admin") {
      return Err(Http(UNAUTHORIZED_401)), [];
    }
    deletions := [];
    for i := 0 to |memoComments|
      invariant deletions == Map(memoComments[..i], CommentDeletion())
    {
      assert memoComments[..i + 1] == memoComments[..i] + [memoComments[i]];
      MapSnoc(memoComments[..i], memoComments[i], CommentDeletion());
      deletions := deletions + [CommentDeleted(memoComments[i].commid)];
    }
    assert memoComments[..|memoComments|] == memoComments;
    deletions := deletions + [MemoDeleted(id)];
    r := Ok(memo.value);
  }
}
