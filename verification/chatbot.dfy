/** The chatbot endpoints of a project: a chatbot names a model and the
    pre-prompt sent with it. Creating one needs project access, the project's
    chatbot-editor role and a model the executor supports; updating one needs
    only project access. */
module Chatbots {
  import opened Results
  import opened Records
  import opened Users
  import opened Crud
  import Worker

  /** The payload of a new chatbot (`ChatbotCreate`). */
  datatype ChatbotCreate = ChatbotCreate(projectid: int, name: string, prePrompt: string, model: string)

  /** The fields an update overwrites (`ChatbotUpdate`). */
  datatype ChatbotUpdate = ChatbotUpdate(name: string, prePrompt: string, model: string)

  /** `create_aiChatRole`: 404 without the project, 500 without its tag or its
      chatbot-editor tag, 401 without project access or without the editor
      tag's text as a role, 400 for a model other than the three supported
      ones. The answer is the id `post_Chatbot` gives the new row. */
  function CreateChatbot(current: User, payload: ChatbotCreate, proj: Option<Project>, tag: Option<Tag>,
                         cbetag: Option<Tag>, newId: int): (r: Result<int>)
    ensures proj.None? ==> r == Err(Http(NOT_FOUND_404))
    ensures proj.Some? && (tag.None? || cbetag.None?) ==> r == Err(Http(INTERNAL_SERVER_ERROR_500))
    ensures proj.Some? && tag.Some? && cbetag.Some?
            && (!HasProjectAccess(current, proj.value) || !HasRole(current, cbetag.value.text))
            ==> r == Err(Http(UNAUTHORIZED_401))
    ensures r.Ok? <==>
      && ProjectGuard(current, proj, tag).Ok?
      && cbetag.Some? && HasRole(current, cbetag.value.text)
      && Worker.SupportedModel(payload.model)
    ensures r.Err? ==> r.error.Http?
    ensures r.Ok? ==> r.value == newId
  {
    if proj.None? then Err(Http(NOT_FOUND_404))
    else if tag.None? then Err(Http(INTERNAL_SERVER_ERROR_500))
    else if cbetag.None? then Err(Http(INTERNAL_SERVER_ERROR_500))
    else
      var weAreAllowed := HasProjectAccess(current, proj.value) && HasRole(current, cbetag.value.text);
      if !weAreAllowed then Err(Http(UNAUTHORIZED_401))
      else if payload.model == "text-davinci-003" || payload.model == "gpt-3.5-turbo" || payload.model == "gpt-4" then
        Ok(newId)
      else Err(Http(BAD_REQUEST_400))
  }

  /** An unsupported model is refused with 400 exactly when every other check passes. */
  lemma CreateChatbotUnsupportedModel(current: User, payload: ChatbotCreate, proj: Option<Project>,
                                      tag: Option<Tag>, cbetag: Option<Tag>, newId: int)
    requires ProjectGuard(current, proj, tag).Ok? && cbetag.Some? && HasRole(current, cbetag.value.text)
    ensures CreateChatbot(current, payload, proj, tag, cbetag, newId) == Err(Http(BAD_REQUEST_400))
            <==> !Worker.SupportedModel(payload.model)
  {
  }

  /** `read_aiChatRole`: 404 without the chatbot, then the guard of its
      project. It is the chatbot twin of `AiChats.ReadAiChatExchange`, so its
      contract and body deliberately match that one. */
  function ReadChatbot(current: User, chatbot: Option<Chatbot>, proj: Option<Project>, tag: Option<Tag>)
    : (r: Result<Chatbot>)
    ensures chatbot.None? ==> r == Err(Http(NOT_FOUND_404))
    ensures chatbot.Some? ==> (r.Err? <==> ProjectGuard(current, proj, tag).Err?)
    ensures chatbot.Some? && r.Err? ==> r.error == ProjectGuard(current, proj, tag).error
    ensures r.Ok? ==> r == Ok(chatbot.value)
  {
    GuardedRead(current, chatbot, proj, tag)
  }

  /** `read_all_project_aiChatRoles`: the project guard, then the project's
      chatbots as stored; the chatbot twin of `AiChats.ReadAllProjectAiChats`. */
  function ReadAllProjectChatbots(current: User, proj: Option<Project>, tag: Option<Tag>, chatbots: seq<Chatbot>)
    : (r: Result<seq<Chatbot>>)
    ensures r.Err? <==> ProjectGuard(current, proj, tag).Err?
    ensures r.Err? ==> r.error == ProjectGuard(current, proj, tag).error
    ensures r.Ok? ==> r.value == chatbots
  {
    GuardedList(current, proj, tag, chatbots)
  }

  /** `update_aiChatRole`: 404 without the chatbot, then the guard of its
      project; the chatbot is stored with the payload's name, pre-prompt and
      model and everything else kept. The answer is the path's chatbot id
      together with the row handed to `put_Chatbot`. */
  function UpdateChatbot(current: User, chatbotid: int, chatbot: Option<Chatbot>, proj: Option<Project>,
                         tag: Option<Tag>, payload: ChatbotUpdate): (r: Result<(int, Chatbot)>)
    ensures chatbot.None? ==> r == Err(Http(NOT_FOUND_404))
    ensures chatbot.Some? ==> (r.Err? <==> ProjectGuard(current, proj, tag).Err?)
    ensures chatbot.Some? && r.Err? ==> r.error == ProjectGuard(current, proj, tag).error
    ensures r.Ok? ==>
      var c := r.value.1;
      && r.value.0 == chatbotid
      && c.chatbotid == chatbot.value.chatbotid && c.projectid == chatbot.value.projectid
      && c.userid == chatbot.value.userid && c.username == chatbot.value.username
      && c.name == payload.name && c.prePrompt == payload.prePrompt && c.model == payload.model
  {
    if chatbot.None? then Err(Http(NOT_FOUND_404))
    else
      var g := ProjectGuard(current, proj, tag);
      if g.Err? then Err(g.error)
      else Ok((chatbotid, chatbot.value.(name := payload.name, prePrompt := payload.prePrompt, model := payload.model)))
  }

  /** Everyone allowed to create a chatbot in a project may update any
      chatbot of that project. */
  lemma CreatorsMayUpdate(current: User, payload: ChatbotCreate, proj: Option<Project>, tag: Option<Tag>,
                          cbetag: Option<Tag>, newId: int, stored: Chatbot, update: ChatbotUpdate)
    requires CreateChatbot(current, payload, proj, tag, cbetag, newId).Ok?
    ensures UpdateChatbot(current, newId, Some(stored), proj, tag, update).Ok?
  {
  }

  /** A created chatbot names a model the executor answers for; an update may
      store any model, and a task sent with an unsupported one comes back with
      no reply. */
  lemma UpdateSkipsModelCheck(current: User, stored: Chatbot, proj: Project, tag: Tag,
                              update: ChatbotUpdate, task: Worker.AiChatTask,
                              complete: (string, string) -> string, chat: (string, seq<Worker.Message>) -> string)
    requires HasProjectAccess(current, proj)
    requires !Worker.SupportedModel(update.model) && task.model == update.model
    ensures UpdateChatbot(current, stored.chatbotid, Some(stored), Some(proj), Some(tag), update).Ok?
    ensures UpdateChatbot(current, stored.chatbotid, Some(stored), Some(proj), Some(tag), update).value.1.model
            == update.model
    ensures Worker.OpenAIComm(task, complete, chat).reply.None?
  {
  }

  /** The model of every successfully created chatbot is one a task gets a reply for. */
  lemma CreatedModelIsAnswered(current: User, payload: ChatbotCreate, proj: Option<Project>, tag: Option<Tag>,
                               cbetag: Option<Tag>, newId: int, task: Worker.AiChatTask,
                               complete: (string, string) -> string, chat: (string, seq<Worker.Message>) -> string)
    requires CreateChatbot(current, payload, proj, tag, cbetag, newId).Ok?
    requires task.model == payload.model
    ensures Worker.OpenAIComm(task, complete, chat).reply.Some?
  {
  }
}
