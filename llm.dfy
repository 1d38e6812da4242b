/**
 * `LlmService`: building the chat-completion request for a question and
 * choosing the answer from what the remote API sends back. The HTTP
 * exchange itself is a parameter (`send`, `open`): a function from the
 * request to what came back.
 */
module Llm {
  import opened Lang

  const ModelName: string := "deepseek-chat"
  const UserRole: string := "user"
  /** Returned when the API answered without a usable choice. */
  const NoAnswerFallback: string := "抱歉，大模型未能返回有效回答。"
  /** Returned (or streamed) when the API could not be reached. */
  const ConnectionFallback: string := "抱歉，连接AI服务时出现问题，请稍后再试。"

  /** `Message`; both fields may be null in a decoded response. */
  datatype Message = Message(role: Option<string>, content: Option<string>)

  /** `Choice`, as decoded: its message may be null. */
  datatype Choice = Choice(message: Option<Message>)

  /** `LlmResponse`: a list of choices that may be null, whose elements may be null. */
  datatype LlmResponse = LlmResponse(choices: Option<seq<Option<Choice>>>)

  /** `LlmRequest` of the synchronous call. */
  datatype LlmRequest = LlmRequest(model: string, messages: seq<Message>)

  /** The map the streaming call posts: model, messages and the stream flag. */
  datatype StreamRequest = StreamRequest(model: string, messages: seq<Message>, stream: bool)

  /** What `postForObject` yields: a `RestClientException`, or a body that may be null. */
  datatype Exchange = TransportError | Delivered(response: Option<LlmResponse>)

  /** What the streaming transport yields: the chunks that arrived, and whether it then failed. */
  datatype Upstream = Upstream(chunks: seq<string>, failed: bool)

  /** The single message both calls send: the question, in the user role. */
  function UserMessage(question: string): Message {
    Message(Some(UserRole), Some(question))
  }

  function BuildRequest(question: string): (r: LlmRequest)
    ensures r.model == ModelName
    ensures |r.messages| == 1 && r.messages[0].role == Some(UserRole) && r.messages[0].content == Some(question)
  {
    LlmRequest(ModelName, [UserMessage(question)])
  }

  function BuildStreamRequest(question: string): (r: StreamRequest)
    ensures r.stream
    ensures r.model == BuildRequest(question).model && r.messages == BuildRequest(question).messages
  {
    StreamRequest(ModelName, BuildRequest(question).messages, true)
  }

  /** The request carries the question verbatim: different questions give different requests. */
  lemma RequestDeterminesQuestion(q1: string, q2: string)
    requires BuildRequest(q1) == BuildRequest(q2)
    ensures q1 == q2
  {
  }

  /** The response is non-null and has a non-null, non-empty list of choices. */
  predicate HasChoices(e: Exchange) {
    && e.Delivered?
    && e.response.Some?
    && e.response.value.choices.Some?
    && |e.response.value.choices.value| > 0
  }

  /** The message of the first choice, when the first choice is not null. */
  function FirstMessage(e: Exchange): Option<Message>
    requires HasChoices(e)
  {
    match e.response.value.choices.value[0]
    case None => None
    case Some(c) => c.message
  }

  /**
   * `getCompletion`: a transport failure becomes the connection fallback and
   * is never rethrown; a missing response or an empty choice list becomes
   * the no-answer fallback; otherwise the first choice's content is
   * returned, which may itself be null. Only `RestClientException` is
   * caught, so a null first choice or a null message throws.
   */
  function GetCompletion(question: string, send: LlmRequest -> Exchange): (r: Outcome<Option<string>>)
    ensures var e := send(BuildRequest(question));
      && (e.TransportError? ==> r == Returned(Some(ConnectionFallback)))
      && (e.Delivered? && !HasChoices(e) ==> r == Returned(Some(NoAnswerFallback)))
      && (HasChoices(e) && FirstMessage(e).Some? ==> r == Returned(FirstMessage(e).value.content))
      && (r.Thrown? <==> HasChoices(e) && FirstMessage(e).None?)
      && (r.Thrown? ==> r.exception == NullPointerException)
  {
    match send(BuildRequest(question))
    case TransportError => Returned(Some(ConnectionFallback))
    case Delivered(response) =>
      if response.Some? && response.value.choices.Some? && |response.value.choices.value| > 0 then
        match response.value.choices.value[0]
        case None => Thrown(NullPointerException)
        case Some(choice) =>
          match choice.message
          case None => Thrown(NullPointerException)
          case Some(m) => Returned(m.content)
      else
        Returned(Some(NoAnswerFallback))
  }

  /**
   * `getCompletionStream`: the chunks are relayed unchanged and in order;
   * if the transport fails, the error is replaced by one final chunk, the
   * connection fallback, so the stream always completes normally.
   */
  function GetCompletionStream(question: string, open: StreamRequest -> Upstream): (r: seq<string>)
    ensures var u := open(BuildStreamRequest(question));
      && |r| == |u.chunks| + (if u.failed then 1 else 0)
      && r[..|u.chunks|] == u.chunks
      && (u.failed ==> r[|r| - 1] == ConnectionFallback)
  {
    var u := open(BuildStreamRequest(question));
    u.chunks + if u.failed then [ConnectionFallback] else []
  }

  /** A failure before the first chunk yields a stream of exactly the fallback. */
  lemma StreamFailureBeforeFirstChunk(question: string, open: StreamRequest -> Upstream)
    requires open(BuildStreamRequest(question)) == Upstream([], true)
    ensures GetCompletionStream(question, open) == [ConnectionFallback]
  {
  }
}
