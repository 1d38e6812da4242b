/**
 * `ChatController.askQuestion`: refuses a request without a logged-in
 * principal, then one whose question is null or blank, and otherwise asks
 * the chat service on behalf of the principal.
 */
module ChatApi {
  import opened Lang
  import opened Entities
  import opened Chat

  const UnauthorizedMessage: string := "未经授权，请先登录。"
  const EmptyQuestionMessage: string := "问题内容不能为空。"

  /**
   * The early answer of `askQuestion`, if it gives one. The principal is
   * checked first: without one the answer is 401 whatever the question.
   * The request goes through exactly when there is a principal and the
   * question has some char that `trim` would keep.
   */
  function Precheck(principal: Option<string>, question: Option<string>): (r: Option<Response<string>>)
    ensures principal.None? ==> r == Some(Response(401, Some(UnauthorizedMessage)))
    ensures principal.Some? && IsNullOrBlank(question) ==> r == Some(Response(400, Some(EmptyQuestionMessage)))
    ensures r.None? <==>
      principal.Some? && question.Some? && exists i :: 0 <= i < |question.value| && !IsTrimmable(question.value[i])
  {
    if principal.None? then Some(Response(401, Some(UnauthorizedMessage)))
    else if IsNullOrBlank(question) then Some(Response(400, Some(EmptyQuestionMessage)))
    else None
  }

  class ChatController {
    const chatService: ChatService

    constructor (chatService: ChatService)
      ensures this.chatService == chatService
    {
      this.chatService := chatService;
    }

    /**
     * A refused request touches nothing; an accepted one is answered by
     * `getAnswer(question, principal name)` with status 200, and an
     * exception from the service propagates.
     */
    method AskQuestion(request: QuestionRequest, principal: Option<string>, now: Timestamp)
      returns (r: Outcome<Response<string>>, ghost conversationId: string)
      requires chatService.Valid()
      modifies chatService, chatService.historyRepository
      ensures chatService.Valid()
      ensures Precheck(principal, request.question).Some? ==>
        && r == Returned(Precheck(principal, request.question).value)
        && unchanged(chatService)
        && unchanged(chatService.historyRepository)
      ensures Precheck(principal, request.question).None? ==>
        var res := Resolve(old(chatService.questionCache), chatService.knowledge, chatService.send, request.question.value);
        && (res.Returned? ==>
              && r == Returned(Response(200, Some(res.value.answer)))
              && chatService.questionCache == res.value.cache
              && conversationId !in ConversationIdsOf(old(chatService.historyRepository.records))
              && var added := HistoryEntry(chatService.userRepository.users, old(chatService.historyRepository.nextId),
                                           conversationId, request.question.value, res.value.answer, principal.value, now);
                 && chatService.historyRepository.records == old(chatService.historyRepository.records) + added
                 && chatService.historyRepository.nextId == old(chatService.historyRepository.nextId) + |added|)
        && (res.Thrown? ==>
              && r == Thrown(res.exception)
              && chatService.questionCache == old(chatService.questionCache)
              && unchanged(chatService.historyRepository))
      ensures Precheck(principal, request.question).None? ==>
        var q := request.question.value;
        && chatService.knowledgeLookups == old(chatService.knowledgeLookups) + (if q in old(chatService.questionCache) then 0 else 1)
        && chatService.llmCalls == old(chatService.llmCalls)
             + (if q in old(chatService.questionCache) || q in chatService.knowledge then 0 else 1)
    {
      var early := Precheck(principal, request.question);
      if early.Some? {
        return Returned(early.value), "";
      }
      var answer;
      answer, conversationId := chatService.GetAnswer(request.question.value, principal.value, now);
      match answer {
        case Thrown(e) => r := Thrown(e);
        case Returned(text) => r := Returned(Response(200, Some(text)));
      }
    }
  }
}
