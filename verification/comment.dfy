/** The comment endpoints: commenting needs access to the memo, a reply needs
    its parent, and reading or deleting a comment needs access to its memo, or
    the admin role once the memo is gone. */
module Comments {
  import opened Results
  import opened Records
  import opened Users
  import opened Crud

  /** The body of a new comment (`CommentSchema`); a parent of 0 means "no parent". */
  datatype CommentPayload = CommentPayload(text: string, memoid: int, userid: int, username: string,
                                           parent: Option<int>)

  /** The parent after `if payload.parent == 0: payload.parent = None`. */
  function NormalizedParent(parent: Option<int>): (p: Option<int>)
    ensures p != Some(0)
    ensures parent != Some(0) ==> p == parent
    ensures parent == Some(0) ==> p.None?
  {
    if parent == Some(0) then None else parent
  }

  /** `create_comment`: 404 without the memo, 401 without memo access; then a
      parent of 0 becomes no parent, and any other parent must be found by
      `get_comment` (`pcomm`), else 404. The answer carries the id
      `post_comment` returns and the author the payload names. */
  function CreateComment(current: User, payload: CommentPayload, memo: Option<Memo>, pcomm: Option<Comment>,
                         postId: int): (r: Result<Comment>)
    ensures memo.None? ==> r == Err(Http(NOT_FOUND_404))
    ensures memo.Some? && !HasMemoAccess(current, memo.value) ==> r == Err(Http(UNAUTHORIZED_401))
    ensures memo.Some? && HasMemoAccess(current, memo.value) && payload.parent != Some(0) && pcomm.None?
            ==> r == Err(Http(NOT_FOUND_404))
    ensures r.Ok? <==>
      && memo.Some? && HasMemoAccess(current, memo.value)
      && (payload.parent == Some(0) || pcomm.Some?)
    ensures r.Ok? ==>
      r.value == Comment(postId, payload.text, payload.memoid, payload.userid, payload.username,
                         NormalizedParent(payload.parent))
  {
    if memo.None? then Err(Http(NOT_FOUND_404))
    else if !HasMemoAccess(current, memo.value) then Err(Http(UNAUTHORIZED_401))
    else
      var parent := if payload.parent == Some(0) then None else payload.parent;
      if payload.parent != Some(0) && pcomm.None? then Err(Http(NOT_FOUND_404))
      else Ok(Comment(postId, payload.text, payload.memoid, payload.userid, payload.username, parent))
  }

  /** A stored comment never names 0 as its parent, and a top-level comment
      needs no parent lookup. */
  lemma CreatedCommentParent(current: User, payload: CommentPayload, memo: Option<Memo>,
                             pcomm1: Option<Comment>, pcomm2: Option<Comment>, postId: int)
    requires CreateComment(current, payload, memo, pcomm1, postId).Ok?
    ensures CreateComment(current, payload, memo, pcomm1, postId).value.parent != Some(0)
    ensures payload.parent == Some(0) ==>
      CreateComment(current, payload, memo, pcomm2, postId) == CreateComment(current, payload, memo, pcomm1, postId)
  {
  }

  /** The guard of `read_comment` and `delete_comment` once the comment is
      found: memo access, or the admin role when its memo is gone. */
  predicate MayReachComment(u: User, memo: Option<Memo>) {
    if memo.None? then HasRole(u, "admin") else HasMemoAccess(u, memo.value)
  }

  /** `read_comment`: 404 without the comment, then the guard on its memo. */
  function ReadComment(current: User, comment: Option<Comment>, memo: Option<Memo>): (r: Result<Comment>)
    ensures comment.None? ==> r == Err(Http(NOT_FOUND_404))
    ensures comment.Some? && !MayReachComment(current, memo) ==> r == Err(Http(UNAUTHORIZED_401))
    ensures r.Ok? <==> comment.Some? && MayReachComment(current, memo)
    ensures r.Ok? ==> r.value == comment.value
  {
    if comment.None? then Err(Http(NOT_FOUND_404))
    else if memo.None? then
      if !HasRole(current, "admin") then Err(Http(UNAUTHORIZED_401)) else Ok(comment.value)
    else if !HasMemoAccess(current, memo.value) then Err(Http(UNAUTHORIZED_401))
    else Ok(comment.value)
  }

  /** `delete_comment`: the same checks as reading; the deleted comment is the answer. */
  function DeleteComment(current: User, comment: Option<Comment>, memo: Option<Memo>): (r: Result<Comment>)
    ensures comment.None? ==> r == Err(Http(NOT_FOUND_404))
    ensures comment.Some? && !MayReachComment(current, memo) ==> r == Err(Http(UNAUTHORIZED_401))
    ensures r.Ok? <==> comment.Some? && MayReachComment(current, memo)
    ensures r.Ok? ==> r.value == comment.value
  {
    ReadComment(current, comment, memo)
  }

  /** Whoever may read a comment may delete it, author or not, and nobody
      else may; an admin may do both to every comment. */
  lemma ReadersMayDeleteComments(current: User, comment: Option<Comment>, memo: Option<Memo>)
    ensures DeleteComment(current, comment, memo) == ReadComment(current, comment, memo)
    ensures comment.Some? && HasRole(current, "admin") ==> DeleteComment(current, comment, memo).Ok?
  {
    if comment.Some? && HasRole(current, "admin") && memo.Some? {
      MemoAccessAdminOrAuthor(current, memo.value);
    }
  }

  /** Whoever may comment on a memo may read and delete its comments. */
  lemma CommentersMayReach(current: User, payload: CommentPayload, memo: Option<Memo>, pcomm: Option<Comment>,
                           postId: int, comment: Comment)
    requires CreateComment(current, payload, memo, pcomm, postId).Ok?
    ensures ReadComment(current, Some(comment), memo).Ok?
    ensures DeleteComment(current, Some(comment), memo).Ok?
  {
  }
}
