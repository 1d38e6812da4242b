/**
 * The JPA entities and the request/response objects of the backend, as
 * values. Timestamps (`LocalDateTime`) are abstract integers: only their
 * order matters to the modelled code. Database identifiers (`Long`) are
 * naturals handed out by the repositories.
 */
module Entities {
  import opened Lang

  type Timestamp = int

  /** One question/answer turn (`ConversationHistory`). */
  datatype HistoryRecord = HistoryRecord(
    id: nat,
    userId: nat,
    question: string,
    answer: string,
    timestamp: Timestamp,
    conversationId: string)

  /**
   * A registered account (`User`). The registration time is a not-null
   * column and the last-login time a nullable one; both are `Option`s here
   * because the entity object holds null until they are set.
   */
  datatype User = User(
    id: nat,
    username: string,
    password: string,
    roles: string,
    registrationTime: Option<Timestamp>,
    lastLoginTime: Option<Timestamp>)

  /** The body of a chat request; both fields may be absent (null). */
  datatype QuestionRequest = QuestionRequest(question: Option<string>, conversationId: Option<string>)

  /** The answer to a chat request together with the conversation it belongs to. */
  datatype ChatResponse = ChatResponse(answer: string, conversationId: string)

  /** The body of a registration request. */
  datatype RegisterRequest = RegisterRequest(username: string, password: string)

  /** An HTTP response (`ResponseEntity`): a status and a body that may be absent. */
  datatype Response<T> = Response(status: int, body: Option<T>)

  /** The conversation ids occurring in some records. */
  function ConversationIdsOf(s: seq<HistoryRecord>): set<string> {
    set h | h in s :: h.conversationId
  }
}
