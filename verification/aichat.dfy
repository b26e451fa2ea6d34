/** AI chat exchanges of a project: the first question, reading them back,
    and a follow-up question that extends the conversation. The completion
    service is a parameter, `complete`, giving the text the service answers
    for a prompt; the handlers call it only after every check has passed. */
module AiChats {
  import opened Results
  import opened Text
  import opened Records
  import opened Crud

  /** The characters `.strip(" \n")` removes from a reply. */
  const ReplyTrim: set<char> := {' ', '\n'}

  /** The instructions the first question is appended to. */
  const AttorneyPrePrompt := "You are a highly knowledgable attorney. You only answer truthfully.\n    If unsure of an answer, say \"I am not sure\". If you do not have an answer, say \"I do not know\".\n    When you are sure of your answer, reply as a California lawyer. \n    If the question is about a state other than California, or another country, \n    make sure to explain how other states and countries laws may vary from California.\n    Be helpful, explaining options, and if you need more information to help ask for the needed information in a polite manner. \n    \n    Client: "

  /** The prompt sent for a first question. */
  function FirstPrompt(question: string): (p: string)
    ensures |p| == |AttorneyPrePrompt| + |question|
    ensures p[..|AttorneyPrePrompt|] == AttorneyPrePrompt && p[|AttorneyPrePrompt|..] == question
  {
    AttorneyPrePrompt + question
  }

  /** The prompt sent for a follow-up: the conversation so far, the last
      reply and the new question. */
  function ContinuationPrompt(a: AiChat, question: string): string {
    a.prompt + " \n" + a.reply + "\n" + question
  }

  /** The prompt stored after a follow-up, joined with HTML line breaks. */
  function StoredPrompt(a: AiChat, question: string): (p: string)
    ensures StartsWith(p, a.prompt)
  {
    var p := a.prompt + "<br><br>" + a.reply + "<br><br>" + question;
    assert p[..|a.prompt|] == a.prompt;
    p
  }

  /** The stored reply: the service's text without leading or trailing spaces and newlines. */
  function StoredReply(text: string): (r: string)
    ensures |r| > 0 ==> r[0] != ' ' && r[0] != '\n' && r[|r| - 1] != ' ' && r[|r| - 1] != '\n'
    ensures Strip(r, ReplyTrim) == r
  {
    StripIdempotent(text, ReplyTrim);
    Strip(text, ReplyTrim)
  }

  /** `create_aiChatExchange`: the project guard, then one completion of the
      pre-prompt followed by the question. The posted row keeps the question
      as asked (without the pre-prompt) and the trimmed reply; `newId` is
      the id `post_aiChat` answers with. */
  function CreateAiChatExchange(current: User, projectid: int, question: string,
                                proj: Option<Project>, tag: Option<Tag>,
                                complete: string -> string, newId: int): (r: Result<AiChat>)
    ensures r.Err? <==> ProjectGuard(current, proj, tag).Err?
    ensures r.Err? ==> r.error == ProjectGuard(current, proj, tag).error
    ensures r.Ok? ==> r.value == AiChat(newId, projectid, current.userid, current.username, question,
                                        StoredReply(complete(FirstPrompt(question))))
  {
    var g := ProjectGuard(current, proj, tag);
    if g.Err? then Err(g.error)
    else
      var finalPrompt := AttorneyPrePrompt + question;
      var aiResponse := Strip(complete(finalPrompt), ReplyTrim);
      Ok(AiChat(newId, projectid, current.userid, current.username, question, aiResponse))
  }

  /** The checks are decided before the service is asked: a refused request
      is refused whatever the service would say, and the service is asked
      exactly the first prompt. */
  lemma CreateDecidedBeforeCompletion(current: User, projectid: int, question: string,
                                      proj: Option<Project>, tag: Option<Tag>,
                                      complete1: string -> string, complete2: string -> string, newId: int)
    ensures CreateAiChatExchange(current, projectid, question, proj, tag, complete1, newId).Err? ==>
      CreateAiChatExchange(current, projectid, question, proj, tag, complete2, newId) ==
      CreateAiChatExchange(current, projectid, question, proj, tag, complete1, newId)
    ensures complete1(FirstPrompt(question)) == complete2(FirstPrompt(question)) ==>
      CreateAiChatExchange(current, projectid, question, proj, tag, complete2, newId) ==
      CreateAiChatExchange(current, projectid, question, proj, tag, complete1, newId)
  {
  }

  /** `read_aichatExchange`: 404 without the exchange, then the guard of its project. */
  function ReadAiChatExchange(current: User, aichat: Option<AiChat>, proj: Option<Project>, tag: Option<Tag>)
    : (r: Result<AiChat>)
    ensures aichat.None? ==> r == Err(Http(NOT_FOUND_404))
    ensures aichat.Some? ==> (r.Err? <==> ProjectGuard(current, proj, tag).Err?)
    ensures aichat.Some? && r.Err? ==> r.error == ProjectGuard(current, proj, tag).error
    ensures r.Ok? ==> r == Ok(aichat.value)
  {
    GuardedRead(current, aichat, proj, tag)
  }

  /** `read_all_project_aichats`: the project guard, then the project's exchanges as stored. */
  function ReadAllProjectAiChats(current: User, proj: Option<Project>, tag: Option<Tag>, aichats: seq<AiChat>)
    : (r: Result<seq<AiChat>>)
    ensures r.Err? <==> ProjectGuard(current, proj, tag).Err?
    ensures r.Err? ==> r.error == ProjectGuard(current, proj, tag).error
    ensures r.Ok? ==> r.value == aichats
  {
    GuardedList(current, proj, tag, aichats)
  }

  /** `update_aiChatExchange`: 404 without the exchange, then the guard of its
      project, then one completion of the continuation prompt. The exchange
      is stored with the extended prompt and the trimmed new reply;
      `putResult` is what `put_aichat` answers, which the handler returns. */
  function UpdateAiChatExchange(current: User, aichat: Option<AiChat>, proj: Option<Project>, tag: Option<Tag>,
                                question: string, complete: string -> string, putResult: int)
    : (r: Result<(int, AiChat)>)
    ensures aichat.None? ==> r == Err(Http(NOT_FOUND_404))
    ensures aichat.Some? ==> (r.Err? <==> ProjectGuard(current, proj, tag).Err?)
    ensures aichat.Some? && r.Err? ==> r.error == ProjectGuard(current, proj, tag).error
    ensures r.Ok? ==>
      var a := aichat.value;
      && r.value.0 == putResult
      && r.value.1 == a.(prompt := StoredPrompt(a, question),
                         reply := StoredReply(complete(ContinuationPrompt(a, question))))
  {
    if aichat.None? then Err(Http(NOT_FOUND_404))
    else
      var g := ProjectGuard(current, proj, tag);
      if g.Err? then Err(g.error)
      else
        var a := aichat.value;
        var newPrompt := a.prompt + " \n" + a.reply + "\n" + question;
        var aiResponse := Strip(complete(newPrompt), ReplyTrim);
        var updated := a.(prompt := a.prompt + "<br><br>" + a.reply + "<br><br>" + question, reply := aiResponse);
        Ok((putResult, updated))
  }

  /** The stored prompt holds the old reply and the new question. */
  lemma StoredPromptHolds(a: AiChat, question: string)
    ensures IsSubstring(a.reply, StoredPrompt(a, question))
    ensures IsSubstring(question, StoredPrompt(a, question))
  {
    var br := "<br><br>";
    var p := StoredPrompt(a, question);
    assert p == (a.prompt + br) + a.reply + (br + question);
    MiddleIsSubstring(a.prompt + br, a.reply, br + question);
    assert p == (a.prompt + br + a.reply + br) + question;
    SuffixIsSubstring(a.prompt + br + a.reply + br, question);
  }

  /** A follow-up changes only the prompt and the reply; the old prompt is a
      prefix of the new one, which then holds the old reply and the question. */
  lemma UpdateKeepsConversation(current: User, aichat: AiChat, proj: Option<Project>, tag: Option<Tag>,
                                question: string, complete: string -> string, putResult: int)
    requires UpdateAiChatExchange(current, Some(aichat), proj, tag, question, complete, putResult).Ok?
    ensures var u := UpdateAiChatExchange(current, Some(aichat), proj, tag, question, complete, putResult).value.1;
      && u.aichatid == aichat.aichatid && u.projectid == aichat.projectid
      && u.userid == aichat.userid && u.username == aichat.username
      && StartsWith(u.prompt, aichat.prompt)
      && IsSubstring(aichat.reply, u.prompt)
      && IsSubstring(question, u.prompt)
  {
    StoredPromptHolds(aichat, question);
  }

  /** A follow-up is decided before the service is asked, and the service is
      asked exactly the continuation prompt. */
  lemma UpdateDecidedBeforeCompletion(current: User, aichat: Option<AiChat>, proj: Option<Project>, tag: Option<Tag>,
                                      question: string, complete1: string -> string, complete2: string -> string,
                                      putResult: int)
    ensures UpdateAiChatExchange(current, aichat, proj, tag, question, complete1, putResult).Err? ==>
      UpdateAiChatExchange(current, aichat, proj, tag, question, complete2, putResult) ==
      UpdateAiChatExchange(current, aichat, proj, tag, question, complete1, putResult)
    ensures aichat.Some? && complete1(ContinuationPrompt(aichat.value, question)) == complete2(ContinuationPrompt(aichat.value, question)) ==>
      UpdateAiChatExchange(current, aichat, proj, tag, question, complete2, putResult) ==
      UpdateAiChatExchange(current, aichat, proj, tag, question, complete1, putResult)
  {
  }
}
