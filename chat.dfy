/**
 * `ChatService`: answers a question from the in-memory cache, else from the
 * knowledge table (exact match), else from the LLM, caches what it had to
 * look up, and records the exchange in the history of the asking user.
 */
module Chat {
  import opened Lang
  import opened Entities
  import opened Histories
  import opened Users
  import opened Llm

  /** Which source answered. */
  datatype Source = FromCache | FromKnowledge | FromLlm

  /** An answer, where it came from, and the cache after the lookup. */
  datatype Resolution = Resolution(answer: string, source: Source, cache: map<string, string>)

  /**
   * What an uncached lookup gives: the knowledge answer if there is one,
   * else the LLM's non-null answer, else nothing (the lookup throws).
   */
  function FreshAnswer(knowledge: map<string, string>, send: LlmRequest -> Exchange, question: string): Option<string> {
    if question in knowledge then Some(knowledge[question])
    else match GetCompletion(question, send)
      case Returned(Some(a)) => Some(a)
      case _ => None
  }

  /**
   * The lookup both `getAnswer` overloads perform: cache, then knowledge
   * table, then LLM. Only a miss writes the cache, so an existing entry is
   * never replaced. The cache is a `ConcurrentHashMap`, which refuses a null
   * value: an LLM answer that is null, like an exception from the LLM call,
   * makes the lookup throw and leaves the cache as it was.
   */
  function Resolve(cache: map<string, string>, knowledge: map<string, string>,
                   send: LlmRequest -> Exchange, question: string): (r: Outcome<Resolution>)
    ensures r.Returned? ==> (r.value.source == FromCache <==> question in cache)
    ensures r.Returned? ==> (r.value.source == FromKnowledge <==> question !in cache && question in knowledge)
    ensures r.Returned? && r.value.source == FromCache ==> r.value.answer == cache[question]
    ensures r.Returned? && r.value.source == FromKnowledge ==> r.value.answer == knowledge[question]
    ensures r.Returned? && r.value.source == FromLlm ==> GetCompletion(question, send) == Returned(Some(r.value.answer))
    ensures r.Thrown? <==> question !in cache && FreshAnswer(knowledge, send, question).None?
    ensures r.Thrown? ==> r.exception == NullPointerException
    ensures r.Returned? ==> question in r.value.cache && r.value.cache[question] == r.value.answer
    ensures r.Returned? ==> r.value.cache.Keys == cache.Keys + {question}
    ensures r.Returned? ==> forall k :: k in cache ==> r.value.cache[k] == cache[k]
  {
    if question in cache then
      Returned(Resolution(cache[question], FromCache, cache))
    else if question in knowledge then
      var answer := knowledge[question];
      Returned(Resolution(answer, FromKnowledge, cache[question := answer]))
    else
      match GetCompletion(question, send)
      case Thrown(e) => Thrown(e)
      case Returned(None) => Thrown(NullPointerException)
      case Returned(Some(answer)) => Returned(Resolution(answer, FromLlm, cache[question := answer]))
  }

  /** Every cached answer is the one an uncached lookup would give. */
  ghost predicate Coherent(cache: map<string, string>, knowledge: map<string, string>, send: LlmRequest -> Exchange) {
    forall q :: q in cache ==> FreshAnswer(knowledge, send, q) == Some(cache[q])
  }

  /**
   * With a fixed knowledge table and LLM, the cache changes no answer: a
   * coherent cache gives what an uncached lookup gives, and stays coherent.
   */
  lemma CacheIsTransparent(cache: map<string, string>, knowledge: map<string, string>,
                           send: LlmRequest -> Exchange, question: string)
    requires Coherent(cache, knowledge, send)
    ensures var r := Resolve(cache, knowledge, send, question);
      && (r.Returned? <==> FreshAnswer(knowledge, send, question).Some?)
      && (r.Returned? ==> r.value.answer == FreshAnswer(knowledge, send, question).value)
      && (r.Returned? ==> Coherent(r.value.cache, knowledge, send))
  {
  }

  /** The cache after one request: a lookup that throws leaves it alone. */
  function CacheAfterOne(cache: map<string, string>, knowledge: map<string, string>,
                         send: LlmRequest -> Exchange, question: string): map<string, string>
  {
    match Resolve(cache, knowledge, send, question)
    case Returned(res) => res.cache
    case Thrown(_) => cache
  }

  /** The cache after a run of requests, in order. */
  function CacheAfter(cache: map<string, string>, knowledge: map<string, string>,
                      send: LlmRequest -> Exchange, questions: seq<string>): map<string, string>
    decreases |questions|
  {
    if questions == [] then cache
    else CacheAfter(CacheAfterOne(cache, knowledge, send, questions[0]), knowledge, send, questions[1..])
  }

  /** A cache entry survives any run of later requests unchanged. */
  lemma {:induction false} EntryPersists(cache: map<string, string>, knowledge: map<string, string>,
                                         send: LlmRequest -> Exchange, questions: seq<string>, q: string)
    requires q in cache
    ensures var later := CacheAfter(cache, knowledge, send, questions);
      q in later && later[q] == cache[q]
    decreases |questions|
  {
    if questions != [] {
      EntryPersists(CacheAfterOne(cache, knowledge, send, questions[0]), knowledge, send, questions[1..], q);
    }
  }

  /**
   * A question answered once is answered again, after any other requests,
   * from the cache and with the same answer: neither the knowledge table
   * nor the LLM is asked.
   */
  lemma RepeatedQuestionHitsCache(cache: map<string, string>, knowledge: map<string, string>,
                                  send: LlmRequest -> Exchange, questions: seq<string>, q: string)
    requires Resolve(cache, knowledge, send, q).Returned?
    ensures var first := Resolve(cache, knowledge, send, q).value;
      var later := CacheAfter(first.cache, knowledge, send, questions);
      Resolve(later, knowledge, send, q) == Returned(Resolution(first.answer, FromCache, later))
  {
    var first := Resolve(cache, knowledge, send, q).value;
    EntryPersists(first.cache, knowledge, send, questions, q);
  }

  /** The history rows one request adds: one for a known user, none otherwise. */
  function HistoryEntry(users: seq<User>, nextId: nat, conversationId: string,
                        question: string, answer: string, username: string, now: Timestamp): (r: seq<HistoryRecord>)
    ensures |r| <= 1
    ensures r != [] <==> FindByUsername(users, username).Some?
    ensures r != [] ==> r[0].userId == FindByUsername(users, username).value.id
  {
    match FindByUsername(users, username)
    case None => []
    case Some(user) => [HistoryRecord(nextId, user.id, question, answer, now, conversationId)]
  }

  class ChatService {
    const knowledge: map<string, string>
    const send: LlmRequest -> Exchange
    const historyRepository: ConversationHistoryRepository
    const userRepository: UserRepository
    var questionCache: map<string, string>
    /** How often the knowledge table and the LLM were consulted. */
    ghost var knowledgeLookups: nat
    ghost var llmCalls: nat

    ghost predicate Valid()
      reads this, historyRepository, userRepository
    {
      && historyRepository.Valid()
      && userRepository.Valid()
      && Coherent(questionCache, knowledge, send)
    }

    constructor (knowledge: map<string, string>, send: LlmRequest -> Exchange,
                 historyRepository: ConversationHistoryRepository, userRepository: UserRepository)
      requires historyRepository.Valid() && userRepository.Valid()
      ensures Valid()
      ensures this.knowledge == knowledge && this.send == send
      ensures this.historyRepository == historyRepository && this.userRepository == userRepository
      ensures questionCache == map[] && knowledgeLookups == 0 && llmCalls == 0
    {
      this.knowledge := knowledge;
      this.send := send;
      this.historyRepository := historyRepository;
      this.userRepository := userRepository;
      questionCache := map[];
      knowledgeLookups := 0;
      llmCalls := 0;
    }

    /** `UUID.randomUUID()`: some non-empty id that no stored row uses yet. */
    method NewConversationId() returns (id: string)
      ensures id != [] && id !in ConversationIdsOf(historyRepository.records)
    {
      var used := ConversationIdsOf(historyRepository.records);
      var n := LongerThanAll(used);
      assert seq(n + 1, _ => 'u') !in used;
      id :| id != [] && id !in used;
    }

    /** The cache / knowledge / LLM chain shared by both overloads. */
    method Lookup(question: string) returns (r: Outcome<string>)
      requires Valid()
      modifies this
      ensures Valid()
      ensures var res := Resolve(old(questionCache), knowledge, send, question);
        && (res.Returned? ==> r == Returned(res.value.answer) && questionCache == res.value.cache)
        && (res.Thrown? ==> r == Thrown(res.exception) && questionCache == old(questionCache))
      ensures knowledgeLookups == old(knowledgeLookups) + (if question in old(questionCache) then 0 else 1)
      ensures llmCalls == old(llmCalls) + (if question in old(questionCache) || question in knowledge then 0 else 1)
    {
      CacheIsTransparent(questionCache, knowledge, send, question);
      if question in questionCache {
        return Returned(questionCache[question]);
      }
      knowledgeLookups := knowledgeLookups + 1;
      if question in knowledge {
        var answer := knowledge[question];
        questionCache := questionCache[question := answer];
        return Returned(answer);
      }
      llmCalls := llmCalls + 1;
      var completion := GetCompletion(question, send);
      match completion {
        case Thrown(e) =>
          r := Thrown(e);
        case Returned(None) =>
          r := Thrown(NullPointerException);
        case Returned(Some(answer)) =>
          questionCache := questionCache[question := answer];
          r := Returned(answer);
      }
    }

    /** `saveHistory`: one row for the user of that name, if there is one. */
    method SaveHistory(conversationId: string, question: string, answer: string, username: string, now: Timestamp)
      requires historyRepository.Valid()
      modifies historyRepository
      ensures historyRepository.Valid()
      ensures var added := HistoryEntry(userRepository.users, old(historyRepository.nextId),
                                        conversationId, question, answer, username, now);
        && historyRepository.records == old(historyRepository.records) + added
        && historyRepository.nextId == old(historyRepository.nextId) + |added|
    {
      var user := FindByUsername(userRepository.users, username);
      if user.Some? {
        var _ := historyRepository.Save(HistoryRecord(0, user.value.id, question, answer, now, conversationId));
      }
    }

    /**
     * `getAnswer(String, String)`: answers under a freshly generated
     * conversation id and records the exchange.
     */
    method GetAnswer(question: string, username: string, now: Timestamp) returns (r: Outcome<string>, ghost conversationId: string)
      requires Valid()
      modifies this, historyRepository
      ensures Valid()
      ensures conversationId != [] && conversationId !in ConversationIdsOf(old(historyRepository.records))
      ensures var res := Resolve(old(questionCache), knowledge, send, question);
        && (res.Returned? ==>
              && r == Returned(res.value.answer)
              && questionCache == res.value.cache
              && var added := HistoryEntry(userRepository.users, old(historyRepository.nextId),
                                           conversationId, question, res.value.answer, username, now);
                 && historyRepository.records == old(historyRepository.records) + added
                 && historyRepository.nextId == old(historyRepository.nextId) + |added|)
        && (res.Thrown? ==>
              && r == Thrown(res.exception)
              && questionCache == old(questionCache)
              && unchanged(historyRepository))
      ensures knowledgeLookups == old(knowledgeLookups) + (if question in old(questionCache) then 0 else 1)
      ensures llmCalls == old(llmCalls) + (if question in old(questionCache) || question in knowledge then 0 else 1)
    {
      var id := NewConversationId();
      conversationId := id;
      r := Lookup(question);
      if r.Returned? {
        SaveHistory(id, question, r.value, username, now);
      }
    }

    /**
     * `getAnswer(QuestionRequest, String)`: keeps a non-blank conversation
     * id from the request and generates one otherwise; a null question
     * makes the cache lookup throw before anything changes.
     */
    method GetAnswerToRequest(request: QuestionRequest, username: string, now: Timestamp) returns (r: Outcome<ChatResponse>)
      requires Valid()
      modifies this, historyRepository
      ensures Valid()
      ensures request.question.None? ==>
        && r == Thrown(NullPointerException)
        && questionCache == old(questionCache)
        && unchanged(historyRepository)
      ensures request.question.Some? ==>
        var res := Resolve(old(questionCache), knowledge, send, request.question.value);
        && (res.Returned? ==>
              && r.Returned?
              && r.value.answer == res.value.answer
              && questionCache == res.value.cache
              && var added := HistoryEntry(userRepository.users, old(historyRepository.nextId),
                                           r.value.conversationId, request.question.value, res.value.answer, username, now);
                 && historyRepository.records == old(historyRepository.records) + added
                 && historyRepository.nextId == old(historyRepository.nextId) + |added|)
        && (res.Thrown? ==>
              && r == Thrown(res.exception)
              && questionCache == old(questionCache)
              && unchanged(historyRepository))
      ensures request.question.None? ==>
        knowledgeLookups == old(knowledgeLookups) && llmCalls == old(llmCalls)
      ensures request.question.Some? ==>
        var q := request.question.value;
        && knowledgeLookups == old(knowledgeLookups) + (if q in old(questionCache) then 0 else 1)
        && llmCalls == old(llmCalls) + (if q in old(questionCache) || q in knowledge then 0 else 1)
      ensures r.Returned? && !IsNullOrBlank(request.conversationId) ==>
        r.value.conversationId == request.conversationId.value
      ensures r.Returned? && IsNullOrBlank(request.conversationId) ==>
        r.value.conversationId != [] && r.value.conversationId !in ConversationIdsOf(old(historyRepository.records))
    {
      var conversationId: string;
      if IsNullOrBlank(request.conversationId) {
        conversationId := NewConversationId();
      } else {
        conversationId := request.conversationId.value;
      }
      if request.question.None? {
        return Thrown(NullPointerException);
      }
      var question := request.question.value;
      var answer := Lookup(question);
      if answer.Thrown? {
        return Thrown(answer.exception);
      }
      SaveHistory(conversationId, question, answer.value, username, now);
      r := Returned(ChatResponse(answer.value, conversationId));
    }
  }
}
