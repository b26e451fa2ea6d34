/** The background task that asks the completion service about an AI chat
    task. The two service interfaces are parameters: `complete(model, prompt)`
    is the completion text, `chat(model, messages)` the chat answer's content. */
module Worker {
  import opened Results
  import opened Text
  import AiChats

  /** An AI chat task as the executor receives and returns it. */
  datatype AiChatTask = AiChatTask(
    aichatid: int,
    taskid: string,
    model: string,
    prompt: string,
    reply: Option<string>,
    status: string)

  /** One chat message: `{"role": ..., "content": ...}`. */
  datatype Message = Message(role: string, content: string)

  const CompletionModel := "text-davinci-003"
  const ChatModels: set<string> := {"gpt-3.5-turbo", "gpt-4"}

  /** The models the executor knows how to ask. */
  predicate SupportedModel(model: string) {
    model == CompletionModel || model in ChatModels
  }

  /** The instructions the executor sends with every task. */
  const LawFirmPrePrompt := "You are a bilingual English and Spanish attorney and CA Law Professor. \n    You work for the Gloria Martinez Law Group, a Sacramento Immigration Law firm. \n    You are meeting a potential client whom is seeking law advice. \n    You want them to hire the firm. \n    You only answer truthfully. \n    Let's work out how to help the client in a step by step way so we are sure \n    to have the right answer, the client understands, and they hire us.\n    If multiple options exist for the client, explain each option. \n    If you do not have an answer, say \"I do not know\".\n    \n    "

  /** The prompt of a completion request: the pre-prompt, " \n", then the task's prompt. */
  function CompletionPrompt(prompt: string): (p: string)
    ensures |p| == |LawFirmPrePrompt| + 2 + |prompt|
    ensures p[..|LawFirmPrePrompt|] == LawFirmPrePrompt && p[|LawFirmPrePrompt|..] == " \n" + prompt
  {
    LawFirmPrePrompt + " \n" + prompt
  }

  /** The messages of a chat request: exactly a system message holding the
      pre-prompt and a user message holding the task's prompt. */
  function ChatMessages(prompt: string): (ms: seq<Message>)
    ensures |ms| == 2
    ensures ms[0] == Message("system", LawFirmPrePrompt)
    ensures ms[1] == Message("user", prompt)
  {
    [Message("system", LawFirmPrePrompt), Message("user", prompt)]
  }

  /** `OpenAI_Comm`: dispatch on the model name. The completion model's text
      is trimmed of spaces and newlines; the chat models' content is kept as
      is; any other model asks nothing and leaves no reply. Only `reply` and
      `status` are assigned, and the status is always "ready". */
  function OpenAIComm(task: AiChatTask, complete: (string, string) -> string,
                      chat: (string, seq<Message>) -> string): (t: AiChatTask)
    ensures t == task.(reply := t.reply, status := "ready")
    ensures task.model == CompletionModel ==>
      t.reply == Some(Strip(complete(task.model, CompletionPrompt(task.prompt)), AiChats.ReplyTrim))
    ensures task.model in ChatModels ==> t.reply == Some(chat(task.model, ChatMessages(task.prompt)))
    ensures t.reply.Some? <==> SupportedModel(task.model)
  {
    var aiResponse :=
      if task.model == "text-davinci-003" then
        Some(Strip(complete(task.model, LawFirmPrePrompt + " \n" + task.prompt), {' ', '\n'}))
      else if task.model == "gpt-3.5-turbo" || task.model == "gpt-4" then
        Some(chat(task.model, [Message("system", LawFirmPrePrompt), Message("user", task.prompt)]))
      else None;
    task.(reply := aiResponse, status := "ready")
  }

  /** An unknown model makes no request: the result is the same whatever the
      services would answer. */
  lemma UnknownModelAsksNothing(task: AiChatTask,
                                complete1: (string, string) -> string, chat1: (string, seq<Message>) -> string,
                                complete2: (string, string) -> string, chat2: (string, seq<Message>) -> string)
    requires !SupportedModel(task.model)
    ensures OpenAIComm(task, complete1, chat1) == OpenAIComm(task, complete2, chat2)
    ensures OpenAIComm(task, complete1, chat1) == task.(reply := None, status := "ready")
  {
  }

  /** Running the task again changes nothing more when the services answer
      the same: the result depends only on the model and the prompt. */
  lemma OpenAICommIdempotent(task: AiChatTask, complete: (string, string) -> string,
                             chat: (string, seq<Message>) -> string)
    ensures OpenAIComm(OpenAIComm(task, complete, chat), complete, chat) == OpenAIComm(task, complete, chat)
  {
  }
}
