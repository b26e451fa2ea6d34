/** The database rows the handlers read and write, one datatype per table.
    A fetched row is a value; a handler's update is the changed row it
    hands back to the database layer. */
module Records {
  import opened Results

  /** A row of the users table (`UserInDB`). `roles` is one string of
      space-separated role words. */
  datatype User = User(
    userid: int,
    username: string,
    email: string,
    roles: string,
    verifyCode: string,
    hashedPassword: string)

  /** A row of the projects table (`ProjectDB`); `status` is one of
      "unpublished", "published" or "archived". */
  datatype Project = Project(
    projectid: int,
    name: string,
    text: string,
    status: string,
    userid: int,
    username: string,
    tagid: int)

  /** A row of the tags table; every project has a tag whose text is the
      project name, and membership of a project is having that text as a role. */
  datatype Tag = Tag(tagid: int, text: string)

  /** A row of the memos table (`MemoDB`). */
  datatype Memo = Memo(
    memoid: int,
    title: string,
    text: string,
    status: string,
    tags: string,
    access: string,
    userid: int,
    username: string,
    projectid: int)

  /** A row of the comments table (`CommentDB`); `parent` is the comment this one replies to. */
  datatype Comment = Comment(
    commid: int,
    text: string,
    memoid: int,
    userid: int,
    username: string,
    parent: Option<int>)

  /** A row of the project invites table; `status` 0, 1 or 2, where 1 is "accepted". */
  datatype Invite = Invite(
    inviteid: int,
    projectid: int,
    tag: string,
    byuserid: int,
    touserid: int,
    status: int)

  /** A row of the AI chat table: the accumulated prompt and the latest reply. */
  datatype AiChat = AiChat(
    aichatid: int,
    projectid: int,
    userid: int,
    username: string,
    prompt: string,
    reply: string)

  /** A row of the chatbot table. */
  datatype Chatbot = Chatbot(
    chatbotid: int,
    projectid: int,
    userid: int,
    username: string,
    name: string,
    prePrompt: string,
    model: string)
}
