/**
 * The chatbot's call to the local language model (`ask_ollama`): the message list sent to
 * the chat endpoint, the request payload and the reading of the reply.
 *
 * The HTTP request is an oracle `post`: it receives the payload and answers with the decoded
 * reply body, or with the text of the exception that `requests.post`, `raise_for_status` or
 * `resp.json()` raised.
 */
module ChatOllama {
  import opened Wrappers
  import opened PyStr
  import opened PyList

  /** A chat message `{"role": ..., "content": ...}`. */
  datatype Message = Message(role: string, content: string)

  const ModelName: string := "gemma3:4b"

  /** How many history messages go into a prompt (`chat_history[-8:]`). */
  const HistoryWindow: nat := 8

  const SystemRoleText: string :=
    "너는 회사 내부 인사관리(HR) 챗봇이다. " + "급여, 휴가, 근태, 복지, 인사 규정 관련 질문에 답변한다."

  const ContextHead: string := "다음은 HR CSV에서 검색된 관련 문서이다.\n"

  const ContextTail: string :=
    "\n\n" + "위 문서 내용에서만 정보를 사용해 한국어로 답변하라. " + "문서에 없는 내용이면 " +
    "'해당 질문은 인사관리 규정에 없는 내용이라 답변할 수 없습니다.'라고 답하라."

  function SystemRoleMessage(): Message
  {
    Message("system", SystemRoleText)
  }

  /** The second system message, with the retrieved documents between its fixed parts. */
  function ContextMessage(context: string): (m: Message)
    ensures m.role == "system"
    ensures |m.content| == |ContextHead| + |context| + |ContextTail|
    ensures m.content[|ContextHead|..|ContextHead| + |context|] == context
  {
    var c := ContextHead + context + ContextTail;
    assert c[|ContextHead|..|ContextHead| + |context|] == context;
    Message("system", c)
  }

  function UserMessage(user: string): Message
  {
    Message("user", user)
  }

  /** The prompt as a value: both system messages, the recent history, the question. */
  function MessagesOf(user: string, context: string, history: seq<Message>): seq<Message>
  {
    [SystemRoleMessage(), ContextMessage(context)] + SliceFrom(history, -(HistoryWindow as int)) + [UserMessage(user)]
  }

  /** The message list of `ask_ollama`: the system messages, then `extend` with the history
      slice when there is history, then `append` of the user message. */
  method BuildMessages(user: string, context: string, history: seq<Message>) returns (messages: seq<Message>)
    ensures messages == MessagesOf(user, context, history)
  {
    messages := [SystemRoleMessage(), ContextMessage(context)];
    if history != [] {
      messages := messages + SliceFrom(history, -8);
    }
    messages := messages + [UserMessage(user)];
  }

  /** The number of history messages a prompt carries. */
  function WindowSize(history: seq<Message>): (n: nat)
    ensures n <= HistoryWindow && n <= |history|
    ensures n == HistoryWindow || n == |history|
  {
    if |history| < HistoryWindow then |history| else HistoryWindow
  }

  /** The prompt is two system messages, then the last `min(8, |history|)` history messages in
      their order, then the question: `3 + min(8, |history|)` messages. */
  lemma MessagesShape(user: string, context: string, history: seq<Message>)
    ensures var m := MessagesOf(user, context, history);
      && |m| == 3 + WindowSize(history)
      && m[0] == Message("system", SystemRoleText)
      && m[1].role == "system" && m[1] == ContextMessage(context)
      && m[2..|m| - 1] == history[|history| - WindowSize(history)..]
      && m[|m| - 1] == Message("user", user)
  {
    var m := MessagesOf(user, context, history);
    var h := SliceFrom(history, -(HistoryWindow as int));
    assert |h| == WindowSize(history);
    assert m[2..|m| - 1] == h;
  }

  /** Every message of the history window keeps its place relative to the end of the history,
      so the message just before the question is the newest history message. */
  lemma MessagesKeepHistoryOrder(user: string, context: string, history: seq<Message>)
    ensures var m := MessagesOf(user, context, history);
      var w := WindowSize(history);
      forall j :: 2 <= j < 2 + w ==> m[j] == history[|history| - w + (j - 2)]
  {
    MessagesShape(user, context, history);
    var m := MessagesOf(user, context, history);
    var w := WindowSize(history);
    forall j | 2 <= j < 2 + w ensures m[j] == history[|history| - w + (j - 2)] {
      assert m[j] == m[2..|m| - 1][j - 2];
    }
  }

  /** The request body: the configured model, the messages, no streaming. */
  datatype Payload = Payload(model: string, messages: seq<Message>, stream: bool)

  function PayloadOf(user: string, context: string, history: seq<Message>): (p: Payload)
    ensures p.model == "gemma3:4b" && !p.stream
    ensures p.messages == MessagesOf(user, context, history)
  {
    Payload(ModelName, MessagesOf(user, context, history), false)
  }

  /** The decoded reply: the `message` object, when present, and its `content`, when present. */
  datatype ReplyMessage = ReplyMessage(content: Option<string>)
  datatype Reply = Reply(message: Option<ReplyMessage>)

  /** `data.get("message", {}).get("content", "").strip()` */
  function ReplyText(reply: Reply): (r: string)
    ensures r == [] || (!IsSpace(r[0]) && !IsSpace(r[|r| - 1]))
    ensures reply.message.None? || reply.message.value.content.None? ==> r == []
  {
    var content := match reply.message
      case None => ""
      case Some(m) => m.content.GetOr("");
    Strip(content)
  }

  /** `ask_ollama(user_message, context_text, chat_history)`: the reply text, or the exception
      raised by the request. */
  function AskOllama(post: Payload -> Result<Reply, string>, user: string, context: string, history: seq<Message>)
    : (r: Result<string, string>)
    ensures r.Ok? <==> post(PayloadOf(user, context, history)).Ok?
    ensures r.Err? ==> r.error == post(PayloadOf(user, context, history)).error
    ensures r.Ok? ==> r.value == [] || (!IsSpace(r.value[0]) && !IsSpace(r.value[|r.value| - 1]))
  {
    match post(PayloadOf(user, context, history))
    case Err(e) => Err(e)
    case Ok(reply) => Ok(ReplyText(reply))
  }
}
