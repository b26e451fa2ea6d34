# miniCMS access and string logic in Dafny

miniCMS is a FastAPI content system. Users hold a space-separated roles
string. Projects own memos, comments, uploaded files, AI chat exchanges and
chatbots. A project's tag text is the role that makes a user a project
member. Invites hand that role out.

This project models the decision logic of the request handlers:

- which caller gets which HTTP status, in the order the handlers test;
- what each handler stores or answers;
- the string handling it relies on: role tests, role normalisation, range
  headers, path names and prompt building.

Everything the handlers fetch or call is an input of the model:

- database rows and lookups;
- the completion service;
- the email validator;
- glob results and file tests;
- fresh ids and codes.

Python's own string operations are defined once, in `text.dfy`:

- `str.split()`, `str.split(sep)` and `str.strip(chars)`;
- `in` on strings, and `replace`;
- `int()` (whitespace, sign, digits with underscores) and `str()` of an integer.

An uncaught Python exception is `Raised(name)`. An `HTTPException` is `Http(code)`.

One module per source file:

- `users.dfy`: role tests and account checks (`api/users.py`);
- `users_htmlpages.dfy`: registration, verification, roles, email change and disabling;
- `crud.dfy`: the access predicates and the filtered listings;
- `project.dfy`, `memo.dfy`, `comment.dfy`, `invite.dfy`, `upload.dfy`,
  `aichat.dfy`, `chatbot.dfy`, `user_action.dfy`, `backups.dfy`, `video.dfy`:
  the endpoints of the file of the same name;
- `worker.dfy`: the completion task;
- `db.dfy`: database URL normalisation.

Loops in the source are methods with loop invariants. Each is proved equal to
a recursive specification function, and the properties are lemmas about that
function.

### Behaviour kept as written

These quirks of the source are part of the model, each with a lemma:

- **Role tests are substring tests.** A role word containing "admin" grants
  admin (`Users.HasRoleIsNotWordMatch`). The account endpoints test for
  " admin", with a leading space, where the other endpoints test for "admin".
- **The superuser guard of `set_user_roles` checks the raw payload.** The
  payload " admin" passes it. The stored roles are then "admin", which lacks
  " admin" (`UserPages.SetUserRolesSuperuserLosesLeadingSpaceAdmin`).
- **Project updates check only project access.** So any member of a published
  project may make themself its owner (`Projects.MemberMayTakeOwnership`).
- **Chatbot updates do not check the model.** A stored unsupported model then
  gets no reply (`Chatbots.UpdateSkipsModelCheck`).
- **`read_proj_invite` looks the project up by the invite's id**
  (`Invites.ReadInviteNamesProjectOfInviteId`).
- **`_get_range_header` reads "bytes=-n" as the range 0..n**
  (`Video.GetRangeHeaderEmptyStart`). A header without '-' raises an
  `IndexError` that nothing catches (`Video.GetRangeHeaderIndexError`).
- **`video_endpoint` treats the end of a range as exclusive**
  (`Video.VideoEndpointReadsEndMinusStart`).
- **`read_all_user_actions` keeps the previous entry when an action's user is
  unknown.** It raises `UnboundLocalError` when there is no previous entry
  (`UserActions.JoinedActionsEntries`, `UserActions.FirstActionUnmatched`).

## Model

| member | source | states |
|---|---|---|
| Users.ActionName | src/app/api/users.py:24-44 | a code names an action exactly when Python indexing of the 20-name list accepts it (negative codes count from the end); any other code raises IndexError |
| Users.ActionNameIsListed | src/app/api/users.py:24-44 | every name a code looks up is one of the listed action names |
| Users.ActionIndex | src/app/api/users.py:24-44 | `UserAction.index(name)` is the first position holding the name |
| Users.ActionNameOfIndex | src/app/api/users.py:24-44 | looking up the code stored for an action name gives that name back |
| Users.HasRoleIffOccurs | src/app/api/users.py:146-147 | a user has a role exactly when the role text occurs at some position of the roles string |
| Users.HasRoleIsNotWordMatch | src/app/api/users.py:146-147 | roles "administrator" grant "admin" although "admin" is not one of its words |
| Users.RoleVerifyIff | src/app/api/users.py:152-157 | a roles string passes exactly when each whitespace-separated word is a substring of "staff admin unverified public"; the empty string passes |
| Users.InitialRolesWords | src/app/api/users.py:138-143 | the initial roles are the words staff, unverified and, for the administrator only, admin, in that order |
| Users.InitialRolesVerify | src/app/api/users.py:138-157 | every initial roles string passes the role check |
| Users.CurrentActiveUser | src/app/api/users.py:232-235 | a disabled account is refused with 400 and every other account passes unchanged |
| Users.ValidateNewUserInfo | src/app/api/users.py:253-281 | success exactly when the username is free, the address is valid and its normalised form is free; a taken username or address is 409, an invalid address is 406 with the validator's message; on success the message is the normalised address |
| UserPages.SignUp | src/app/api/users_htmlpages.py:193-254 | registration turned off is 401, a configuration without the entry raises KeyError, otherwise the account validation decides; a new account has the normalised address and the initial roles, admin only for the configured username and normalised address |
| UserPages.InitialRolesAdmin | src/app/api/users.py:138-143 | "admin" occurs in the initial roles exactly for the administrator |
| UserPages.SignUpAdminDecision | src/app/api/users_htmlpages.py:230-235 | a registered account holds admin exactly when it is the configured administrator, and its roles pass the role check |
| UserPages.AdminCreateUser | src/app/api/users_htmlpages.py:258-321 | only a caller holding " admin" may create accounts (401 otherwise); the account validation decides; new accounts get the non-administrator roles |
| UserPages.AdminCreateUserNotAdmin | src/app/api/users_htmlpages.py:301-302 | an account created this way never holds admin |
| UserPages.RemoveRole | src/app/api/users_htmlpages.py:364-372 | the removal loop builds the single-spaced join of the role words other than the removed one |
| UserPages.WithoutRoleWords | src/app/api/users_htmlpages.py:364-372 | after removal the words are the old ones without the removed role, in order, and the result is single-spaced |
| UserPages.VerifyUserEmail | src/app/api/users_htmlpages.py:344-387 | a verified account is answered "Already verified" with nothing stored; a wrong code is 406; a right code succeeds exactly when `put_user` answers the account's id, and then stores the account without "unverified" and nothing else changed; the only errors are 406 and 500 |
| UserPages.VerifyUserEmailRemovesUnverified | src/app/api/users_htmlpages.py:364-372 | after verification no role word is "unverified" and the other words keep their order |
| UserPages.DedupRoles | src/app/api/users_htmlpages.py:501-513 | the normalisation loop, with its first-word flag, computes the stored roles of a payload |
| UserPages.DedupKeptFromInput | src/app/api/users_htmlpages.py:501-513 | every kept role word comes from the payload |
| UserPages.DedupKeptFresh | src/app/api/users_htmlpages.py:501-513 | no kept word is a substring of the words kept before it |
| UserPages.DedupKeptCovers | src/app/api/users_htmlpages.py:501-513 | every requested word is a substring of the stored roles |
| UserPages.DedupKeptOfFresh | src/app/api/users_htmlpages.py:501-513 | a list of words none of which occurs in the words before it is kept whole |
| UserPages.NormalizeRolesProperties | src/app/api/users_htmlpages.py:501-513 | the stored roles are single-spaced, hold each word once, only requested words and every requested word, and normalising them again changes nothing |
| UserPages.SetUserRoles | src/app/api/users_htmlpages.py:455-529 | in the handler's order: a non-admin may only target themself (401), an unknown user is 404, the superuser's payload must keep " admin" (401), a non-admin may not ask for " admin" (401); on success the target's roles are the normalised payload |
| UserPages.SetUserRolesSuperuserLosesLeadingSpaceAdmin | src/app/api/users_htmlpages.py:476-513 | the payload " admin" passes the superuser guard, yet the stored roles "admin" no longer hold " admin" |
| UserPages.SetUserEmail | src/app/api/users_htmlpages.py:570-626 | an unverified account is 412, the current address is "ok" with nothing stored, a rejected address is 406; a new accepted address succeeds exactly when `put_user` answers the account's id, and then the normalised address and the new code are stored and " unverified" is appended to the roles |
| UserPages.SetUserEmailUnverifies | src/app/api/users_htmlpages.py:605-617 | after a change the role words end with "unverified", and verification accepts the new code and refuses every other code with 406 |
| UserPages.DeleteUser | src/app/api/users_htmlpages.py:632-661 | the caller's roles gain " disabled" and nothing else changes; the only error is 500 |
| UserPages.DeleteUserLocksOut | src/app/api/users_htmlpages.py:642-652 | a disabled account is refused with 400 from then on |
| Crud.ProjectAccessAdminOrOwner | src/app/api/crud.py:70-77 | admins and the project's owner always have project access |
| Crud.ProjectAccessOthers | src/app/api/crud.py:73-76 | anyone else has access exactly when they hold the project name as a role and the project is published |
| Crud.ProjectGuard | src/app/api/memo.py:26-38 | the checks the project handlers share, with the access test given the user and the project: 404 without the project, 500 without its tag, 401 without access; passing yields the tag |
| Crud.ProjectGuardAsWritten | src/app/api/aichat.py:35-43 | the same checks with the access test given three arguments: 404 without the project, 500 without its tag, and TypeError once both are found |
| Crud.ProjectGuardAsWrittenRefusesAuthor | src/app/api/crud.py:70-77 | the project's author passes the two-argument guard and gets TypeError from the guard as written |
| Crud.GetAllProjects | src/app/api/crud.py:105-116 | the loop returns exactly the accessible projects, in row order |
| Crud.AccessibleProjectsExactly | src/app/api/crud.py:111-114 | a project is listed exactly when it is a row and accessible |
| Crud.AccessibleProjectsInOrder | src/app/api/crud.py:111-114 | listing two runs of rows is listing each in turn |
| Crud.MemoAccessAdminOrAuthor | src/app/api/crud.py:150-160 | admins and the memo's author always have memo access |
| Crud.MemoAccessOthers | src/app/api/crud.py:150-160 | anyone else needs a published memo whose access is "public" or is a substring of their roles |
| Crud.MarkUnpublished | src/app/api/crud.py:200-207 | an unpublished memo's title gains " (unpublished)" and nothing else changes |
| Crud.VisibleMemosSnoc | src/app/api/crud.py:200-207 | one more row adds its marked memo exactly when it is accessible |
| Crud.GetAllMemos | src/app/api/crud.py:190-209 | the loop returns the accessible memos, marked, in row order |
| Crud.VisibleMemosExactly | src/app/api/crud.py:200-207 | every accessible memo is listed marked, and every listed memo is an accessible row, marked |
| Crud.VisibleMemosInOrder | src/app/api/crud.py:200-207 | the memo listing keeps the row order |
| Crud.GetAllPublicMemos | src/app/api/crud.py:213-225 | the loop returns the public, published memos in row order |
| Crud.PublicMemosExactly | src/app/api/crud.py:220-223 | a memo is listed exactly when it is a row with access "public" and status "published"; the listing keeps the row order |
| Crud.PublicMemoVisibleToAll | src/app/api/crud.py:150-160 | a public, published memo is visible to every user |
| Crud.GetAllMemoComments | src/app/api/crud.py:284-308 | the copying loop returns the comment rows themselves, in order |
| Projects.CreateProject | src/app/api/project.py:21-73 | a non-admin is 401 first; a non-alphanumeric or taken name is 409; no tag id is 500; success exactly otherwise, giving an unpublished project owned by the creator with the new tag |
| Projects.AlnumIsWord | src/app/api/project.py:31-33 | an alphanumeric project name is a single role word |
| Projects.NewProjectAccess | src/app/api/project.py:56-73 | a new project is open to its creator and to admins only |
| Projects.ReadProject | src/app/api/project.py:77-92 | 404 without the project, 401 without access, otherwise the project |
| Projects.UpdateProject | src/app/api/project.py:105-132 | fails exactly as reading fails; otherwise the payload is stored whole |
| Projects.MemberMayTakeOwnership | src/app/api/project.py:105-132 | a member of a published project may make themself its owner and keeps access |
| Projects.DeleteProject | src/app/api/project.py:136-161 | a non-admin is 401 before the lookup, then 404 without the project, otherwise the deleted project |
| Projects.DeleteProjectHidesExistence | src/app/api/project.py:136-161 | a non-admin gets the same answer whether or not the project exists |
| Memos.WithProjectTag | src/app/api/memo.py:40-42 | the tagged tags contain the tag text and start with the old tags; they are the old tags when those already contain it, and otherwise the old tags, a space and the tag text |
| Memos.WithProjectTagIdempotent | src/app/api/memo.py:40-42 | tagging twice is tagging once |
| Memos.WithProjectTagAddsWord | src/app/api/memo.py:40-42 | a missing tag is added as one more word after the old ones |
| Memos.CreateMemo | src/app/api/memo.py:20-61 | fails exactly as the project guard fails; the created memo is the payload with the project tag added |
| Memos.ReadMemo | src/app/api/memo.py:65-79 | with the access test called rather than awaited: 404 without the memo, 401 without memo access, otherwise the memo |
| Memos.ReadMemoAsWritten | src/app/api/memo.py:70-75 | 404 without the memo; every existing memo ends in TypeError, because the bool from `user_has_memo_access` is awaited |
| Memos.ReadMemoAsWrittenRefusesAuthor | src/app/api/memo.py:75 | the memo's author gets TypeError from `read_memo` as written and the memo from the corrected one |
| Memos.UpdateMemo | src/app/api/memo.py:93-140 | 404 without the memo, then the project guard, then 401 unless author or admin; the stored memo is the tagged payload with the stored memo's author |
| Memos.UpdateKeepsAuthor | src/app/api/memo.py:124-125 | the author named in the payload makes no difference to an update |
| Memos.ChangersMayRead | src/app/api/memo.py:65-79 | whoever may change a memo may read it through the corrected `read_memo` |
| Memos.CascadeDeletesCommentsFirst | src/app/api/memo.py:158-165 | every comment of the memo is deleted, in order, before the memo, which is deleted last and once |
| Memos.DeleteMemo | src/app/api/memo.py:144-167 | 404 without the memo, 401 unless author or admin, with nothing deleted; otherwise the comments and then the memo are deleted and the memo is the answer |
| Comments.NormalizedParent | src/app/api/comment.py:37-44 | a parent of 0 becomes no parent; other parents are kept |
| Comments.CreateComment | src/app/api/comment.py:20-61 | 404 without the memo, 401 without memo access, 404 when a named parent is missing; success exactly otherwise, with the normalised parent |
| Comments.CreatedCommentParent | src/app/api/comment.py:37-44 | a stored comment never names 0 as parent, and a top-level comment does not depend on any parent lookup |
| Comments.ReadComment | src/app/api/comment.py:65-83 | 404 without the comment; then memo access, or the admin role when the memo is gone, else 401 |
| Comments.DeleteComment | src/app/api/comment.py:123-143 | the same checks as reading; the deleted comment is the answer |
| Comments.ReadersMayDeleteComments | src/app/api/comment.py:123-143 | deleting answers exactly as reading does, and an admin may delete every comment |
| Comments.CommentersMayReach | src/app/api/comment.py:65-143 | whoever may comment on a memo may read and delete its comments |
| Invites.AlreadyInvited | src/app/api/invite.py:52-61 | the loop finds whether any of the invitee's invites is for the project |
| Invites.CreateProjInvite | src/app/api/invite.py:21-67 | 404 without project, 500 without tag, 404 without invitee, 409 for a member or an already invited user; success exactly otherwise, posting the caller's invite with the tag text |
| Invites.ReadProjInvite | src/app/api/invite.py:71-110 | 404 without the invite, 401 for unverified callers and anyone other than admin, inviter and invitee; the answer pairs the invite with the project and tag found for the given id |
| Invites.ReadInviteUnverifiedDenied | src/app/api/invite.py:80-92 | an unverified caller is refused every invite, even their own |
| Invites.ReadInviteNamesProjectOfInviteId | src/app/api/invite.py:95-100 | the answer names the project whose id is the invite id, while keeping the invite's own project id |
| Invites.AcceptedBy | src/app/api/invite.py:260-273 | the accepted invitee's roles are the old roles, a space and the tag; they hold the tag and nothing else changed |
| Invites.UpdateProjInvite | src/app/api/invite.py:216-278 | a status outside 0..2 is 400 before any lookup, then 404 without the invite, 401 unless admin or invitee, 404 without the invitee, 409 when the invitee already holds the tag; it succeeds exactly when all these pass and `put_projInvite` (and on acceptance `put_user`) answers the expected id; acceptance stores the invitee with the tag appended to the roles |
| Invites.AcceptMakesMember | src/app/api/invite.py:260-273 | acceptance adds the tag as the last role word; answering again or inviting the invitee again is then 409 |
| Invites.DeleteProjInvite | src/app/api/invite.py:283-298 | 404 without the invite, 401 unless invitee, inviter or admin, otherwise the deleted invite |
| Invites.ReadersMayDelete | src/app/api/invite.py:80-92 | whoever may read an invite may delete it; unverified inviters and invitees may delete but not read |
| Upload.UploadFile | src/app/api/upload.py:26-53 | 403 exactly for callers who are neither admin nor staff; a failed write is answered with the error message |
| Upload.FileName | src/app/api/upload.py:79-81 | the base name taken as the last '/'-piece of the path (also at lines 207-209) holds no '/' |
| Upload.ListFiles | src/app/api/upload.py:75-98 | the listing loop describes the regular files, in glob order |
| Upload.ListingEntries | src/app/api/upload.py:75-98 | each entry names a regular file of the directory by its last path piece and links to prefix plus name; every regular file is listed |
| Upload.ReadAllUploads | src/app/api/upload.py:58-102 | 403 exactly for callers who are neither admin nor staff, otherwise the listing linked under /static/uploads/ |
| Upload.ProjectUpload | src/app/api/upload.py:108-159 | 404 without the project and 409 for an archived one, both before the tag; success exactly for admins and members, and an unpublished project also needs admin or owner |
| Upload.ProjectFileGuard | src/app/api/upload.py:168-193 | 404, 500, then 403 unless admin or member; archived projects only for admins, unpublished ones only for admins and the owner |
| Upload.ReadAllProjectUploads | src/app/api/upload.py:162-230 | fails exactly as the guard fails; otherwise the project directory's listing linked under the project's path |
| Upload.ProjectListingLinks | src/app/api/upload.py:218 | every project listing link is "/upload/projectFile/" + projectid + "/" + a name without '/' |
| Upload.GetProjectFile | src/app/api/upload.py:234-275 | fails exactly as the guard fails; otherwise the file's path under the tag's upload directory |
| Upload.ListAndDownloadAgree | src/app/api/upload.py:162-275 | listing a project's files and downloading one are allowed to the same callers |
| Upload.ProjectUploadNeedsMembershipAndOwnership | src/app/api/upload.py:124-138 | a non-admin may upload to an unpublished project exactly when they are both member and owner |
| AiChats.FirstPrompt | src/app/api/aichat.py:53-66 | the first prompt is the pre-prompt followed by the question |
| AiChats.StoredPrompt | src/app/api/aichat.py:232 | the stored follow-up prompt starts with the old prompt |
| AiChats.StoredReply | src/app/api/aichat.py:70-79 | a stored reply neither starts nor ends with a space or newline, and trimming it again changes nothing |
| AiChats.CreateAiChatExchange | src/app/api/aichat.py:23-92 | fails exactly as the project guard fails; the stored exchange keeps the question as asked and the trimmed answer to the first prompt |
| AiChats.CreateDecidedBeforeCompletion | src/app/api/aichat.py:23-92 | a refusal does not depend on the service, and the service is asked only the first prompt |
| AiChats.ReadAiChatExchange | src/app/api/aichat.py:96-136 | 404 without the exchange, then the project guard, otherwise the exchange |
| AiChats.ReadAllProjectAiChats | src/app/api/aichat.py:141-176 | fails exactly as the project guard fails, otherwise the project's exchanges |
| AiChats.UpdateAiChatExchange | src/app/api/aichat.py:180-245 | 404 without the exchange, then the guard; the exchange is stored with the extended prompt and the trimmed answer to the continuation prompt |
| AiChats.StoredPromptHolds | src/app/api/aichat.py:232 | the stored prompt contains the old reply and the new question |
| AiChats.UpdateKeepsConversation | src/app/api/aichat.py:219-238 | a follow-up changes only prompt and reply, and the new prompt extends the old one with its reply and the question |
| AiChats.UpdateDecidedBeforeCompletion | src/app/api/aichat.py:180-245 | a refusal does not depend on the service, and the service is asked only the continuation prompt |
| Chatbots.CreateChatbot | src/app/api/chatbot.py:21-82 | 404, 500 without either tag, 401 without access or the editor role; success exactly for a supported model once those pass |
| Chatbots.CreateChatbotUnsupportedModel | src/app/api/chatbot.py:60-70 | once the other checks pass, 400 exactly for an unsupported model |
| Chatbots.ReadChatbot | src/app/api/chatbot.py:86-126 | 404 without the chatbot, then the project guard, otherwise the chatbot |
| Chatbots.ReadAllProjectChatbots | src/app/api/chatbot.py:131-166 | fails exactly as the project guard fails, otherwise the project's chatbots |
| Chatbots.UpdateChatbot | src/app/api/chatbot.py:170-242 | 404 without the chatbot, then the guard; name, pre-prompt and model are overwritten and every other field is kept |
| Chatbots.CreatorsMayUpdate | src/app/api/chatbot.py:170-242 | whoever may create a chatbot in a project may update any of its chatbots |
| Chatbots.UpdateSkipsModelCheck | src/app/api/chatbot.py:222-224 | an update stores an unsupported model, and a task with that model gets no reply |
| Chatbots.CreatedModelIsAnswered | src/app/api/chatbot.py:60-70 | a created chatbot's model always gets a reply |
| Worker.CompletionPrompt | src/app/worker.py:66-75 | a completion request sends the pre-prompt, " \n" and the task's prompt |
| Worker.ChatMessages | src/app/worker.py:76-86 | a chat request sends exactly a system message with the pre-prompt and a user message with the prompt |
| Worker.OpenAIComm | src/app/worker.py:45-95 | only reply and status change and the status is "ready"; the completion model's answer is trimmed, the chat models' kept; a reply exists exactly for a supported model |
| Worker.UnknownModelAsksNothing | src/app/worker.py:66-90 | an unknown model gives no reply whatever the services would say |
| Worker.OpenAICommIdempotent | src/app/worker.py:45-95 | running a task twice gives the same task as running it once |
| UserActions.ReadUserAction | src/app/api/user_action.py:18-39 | 401 for a non-admin, 404 without the action, IndexError for a bad code; the answer carries a listed action name and the caller's user name |
| UserActions.LastMatch | src/app/api/user_action.py:57-67 | the user found is the last one with the action's user id, and none is found exactly when no user has it |
| UserActions.JoinedActions | src/app/api/user_action.py:57-67 | a complete listing has one entry per action |
| UserActions.JoinedActionsErrPersists | src/app/api/user_action.py:57-67 | once an exception is raised, later actions do not matter |
| UserActions.JoinedActionsEntries | src/app/api/user_action.py:57-67 | each entry carries its action's name, description and date and the last matching user's name; an action with an unknown user repeats the entry before it |
| UserActions.FirstActionUnmatched | src/app/api/user_action.py:57-67 | a first action with an unknown user raises UnboundLocalError |
| UserActions.ReadAllUserActions | src/app/api/user_action.py:43-69 | 401 for a non-admin; for an admin the nested loop computes the joined listing |
| UserActions.ThisUsersEntries | src/app/api/user_action.py:90-98 | a complete listing has one entry per action |
| UserActions.ThisUsersEntriesErrPersists | src/app/api/user_action.py:90-98 | once an exception is raised, later actions do not matter |
| UserActions.ThisUsersEntriesOk | src/app/api/user_action.py:90-98 | the listing succeeds exactly when the user exists (or there are no actions) and every code names an action |
| UserActions.ThisUsersEntryAt | src/app/api/user_action.py:90-98 | a successful listing maps each action, in order, to its name, description and date with the user's name |
| UserActions.ReadAllThisUsersActions | src/app/api/user_action.py:73-100 | for a non-admin a missing user raises AttributeError and a present one is 401; an admin gets the listing |
| Backups.BackupNames | src/app/api/backups.py:34-38 | one name per globbed path, each the path's last piece and free of '/' |
| Backups.BackupNamesAreSuffixes | src/app/api/backups.py:34-38 | each name ends its path, and is the whole path when that has no '/' |
| Backups.ReadAllBackups | src/app/api/backups.py:20-45 | 401 for a non-admin, otherwise the loop lists the backup names |
| Backups.ReadBackup | src/app/api/backups.py:49-71 | 401 for a non-admin before the file is looked at, then 404 unless the file exists; the answer is "backups/" followed by the name |
| Backups.ReadBackupHidesFiles | src/app/api/backups.py:52-56 | a non-admin learns nothing about which backups exist |
| Database.NormalizeDatabaseUrl | src/app/db.py:26-33 | a URL starting with "postgres://" gets "postgresql://" in its place; every other URL, or none, is kept |
| Database.NormalizedHasNoOldScheme | src/app/db.py:29-31 | a rewritten URL no longer starts with "postgres://" |
| Database.NormalizeIdempotent | src/app/db.py:29-31 | normalising twice is normalising once |
| Database.NormalizeOnlyFirst | src/app/db.py:29-31 | only the leading scheme is rewritten |
| Video.ReadAt | src/app/api/video.py:40-41 | a seek and read return the bytes from the position, at most n of them, to the end for a negative n |
| Video.GetRangeHeader | src/app/api/video.py:67-83 | an accepted range lies inside the file with start at most end; every failure is 416 or the uncaught IndexError |
| Video.GetRangeHeaderIndexError | src/app/api/video.py:74-79 | IndexError exactly for a header without '-' whose start part is empty or an integer |
| Video.GetRangeHeaderBadStart | src/app/api/video.py:74-79 | in a "bytes=" header, a start part that is neither empty nor an integer is 416 |
| Video.GetRangeHeaderBadEnd | src/app/api/video.py:74-79 | after an integer start, an end part that is neither empty nor an integer is 416 |
| Video.GetRangeHeaderRoundTrip | src/app/api/video.py:67-83 | the header "bytes=a-b" of a range inside the file parses back to that range |
| Video.GetRangeHeaderEmptyStart | src/app/api/video.py:74-83 | "bytes=-n" is the range 0..n, or 416 past the end |
| Video.GetRangeHeaderEmptyEnd | src/app/api/video.py:74-83 | "bytes=a-" is the range a..size-1, or 416 past the end |
| Video.SendBytesRange | src/app/api/video.py:53-64 | the chunks concatenate to the inclusive range (nothing for an empty one); each has 1 to chunk-size bytes and all but the last are full |
| Video.BaseHeaders | src/app/api/video.py:94-103 | a full answer carries the fixed headers and the file's length, and no content-range |
| Video.PartialHeaders | src/app/api/video.py:108-113 | a partial answer keeps the fixed headers and carries the range's length and "bytes start-end/size" |
| Video.AnswerLengthIsBodyLength | src/app/api/video.py:86-119 | content-length is the body's length and parses back to it |
| Video.FullResponse | src/app/api/video.py:104-106 | without a range the answer is status 200 with the whole file |
| Video.PartialResponse | src/app/api/video.py:108-119 | for a range the answer is status 206 with exactly the range's bytes |
| Video.RangeRequestsResponse | src/app/api/video.py:86-119 | no header gives the full answer; a header succeeds exactly when it parses, with the partial answer for its range, and otherwise fails with the parser's error |
| Video.ServeVideo | src/app/api/video.py:40-47 | seek and read fail exactly for a negative start (OSError from the seek) or a size below -1 (ValueError from the read); the answer is 206 |
| Video.VideoEndpoint | src/app/api/video.py:19-47 | every answer is 206 with accept-ranges "bytes", and every failure is a ValueError |
| Video.VideoEndpointNoRange | src/app/api/video.py:25-47 | without a header the first 1048576 bytes are served |
| Video.VideoEndpointReadsEndMinusStart | src/app/api/video.py:25-41 | "bytes=a-b" inside the file serves exactly the bytes a..b-1 |
| Video.VideoEndpointMissingEnd | src/app/api/video.py:25-47 | "bytes=a-" serves 1048576 bytes from a |
| Video.ProjectVideoEndpoint | src/app/api/video.py:123-166 | the project guard decides first (404, 500, 401); then the file is served as video/mp4 exactly as range requests are answered |

## Findings

| source | as written | input that shows it | evidently intended | confidence | as-written member | corrected member |
|---|---|---|---|---|---|---|
| src/app/api/memo.py:75 | `await crud.user_has_memo_access(...)` awaits the bool a plain function returns, which raises TypeError | any existing memo, read by its own author | the access test called without `await`, as `comment.py:109` does | high, not executed | Memos.ReadMemoAsWritten, Memos.ReadMemoAsWrittenRefusesAuthor | Memos.ReadMemo, Memos.ChangersMayRead |
| src/app/api/aichat.py:43 | `crud.user_has_project_access(current_user, proj, tag)` passes three arguments to a function of two (`crud.py:70`), which raises TypeError; the same call is at `aichat.py:123,160,209`, `chatbot.py:47,113,150,211`, `memo.py:35,112` and `video.py:150` | any found project and tag, for the project's own author | the call with the user and the project, as `project.py:88` makes it | high, not executed | Crud.ProjectGuardAsWritten, Crud.ProjectGuardAsWrittenRefusesAuthor | Crud.ProjectGuard |

## Left out

- Database access, the ORM and all I/O: rows, lookups and the ids that writes answer with are inputs. Writes are what a handler returns to store.
- The completion service, Celery task dispatch and the email validator are inputs. JWT tokens, password hashing, secrets, email sending, `mkdir` and logging are not modelled.
- The audit calls `crud.rememberUserAction` are left out. The handlers are taken to continue past them. `UserAction` and `UserActionLevel` are imported from `api/user_action.py`, which does not define them, and several names passed to `UserAction.index` are not in the list at `api/users.py:24-44`.
- `crud.py` lacks several functions the handlers call (`get_projInvite`, `get_project_and_tag`, the AI chat and chatbot accessors and others). What they would return is an input.
- UserPages.SignUp: after `post_user` has stored the account, /users/register calls `send_email_validation_email` with four arguments where it takes three (`api/users.py:285`), so the handler raises TypeError; the model answers with the stored account instead. Sending is not modelled.
- UserPages.AdminCreateUser: /users/create makes the same four-argument call after `post_user` (`api/users_htmlpages.py:319`) and raises TypeError with the account stored; the model answers with the stored account instead.
- Memos.ReadMemo: models the access test called, not awaited; as written the handler raises TypeError for every existing memo (`Memos.ReadMemoAsWritten`, see Findings).
- Crud.ProjectGuard: models `user_has_project_access` called with the user and the project. The handlers pass three arguments, so as written every handler built on the guard (the AI chat and chatbot handlers, the memo create and update handlers and `Video.ProjectVideoEndpoint`) raises TypeError once the project and tag are found (`Crud.ProjectGuardAsWritten`, see Findings).
- Handler answers are simplified to the stored or returned record: create endpoints answer with the posted row rather than `{"id": ...}`.
- Streaming bodies are modelled as a sequence of chunks. Concurrency and `async` scheduling are not modelled.
- Character classes are ASCII for `isalnum` and `int()` digits; Unicode digits and normalisation are not modelled. The JSON site configuration is reduced to its `public_registration` entry.
- The login, token refresh, logout, password reset and set-password endpoints and the user listings are not modelled. They are credential handling around the role model above.
- The invite listings (`read_all_user_invites`, `read_all_other_user_invites`, `read_all_project_invites`) are not modelled.
- `read_all_memos` is not modelled as a handler; it only passes rows through `Crud.GetAllMemos`. `read_all_memo_comments` answers 404 without the memo and 401 without memo access before listing (`api/comment.py:91-109`); those guards are not modelled, only the listing `Crud.GetAllMemoComments`.
- `read_all_projects` is not modelled: it calls `crud.get`, which `crud.py` does not define.
- `api/tag.py`, `api/htmlpages.py`, `page_frags.py`, `startup.py`, `main.py`, `models.py`, `utils.py` and `tasks.py` are not part of this model.
