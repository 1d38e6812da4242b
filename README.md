# Question answering and conversation history of the xiaomi-project backend, in Dafny

This project models the answer-resolution and history logic of a Spring
backend that answers customer questions. The model treats each operation as a
sequential state change or a pure function and proves what each one promises.

- **ChatService** (`chat.dfy`, module `Chat`) keeps an in-memory
  `question → answer` cache. It answers from the cache, else from the
  knowledge table (exact match), else from the LLM. It writes the cache only
  on a miss. It then appends one history row, but only when the user name
  belongs to a registered user. The `QuestionRequest` overload keeps a
  non-blank conversation id from the request and generates one otherwise. The
  `String` overload always generates one.
- **ConversationHistoryRepository** (`histories.dfy`, module `Histories`)
  defines the history table's derived queries: the rows of a user, newest
  first; the rows of a conversation, oldest first. It also deletes a
  conversation and returns how many rows went.
- **HistoryController** (`history_api.dfy`, module `HistoryApi`) lists a
  user's conversations. It groups the user's rows by conversation id, keeps
  the earliest row of each group, and sorts the result newest first. It also
  returns one conversation's turns.
- **ChatController** (`chat_api.dfy`, module `ChatApi`) checks the principal
  first, then rejects a blank question, then delegates to ChatService.
- **AuthService** (`auth.dfy`, module `Auth`) registers a user. It refuses a
  name that is taken and keeps user names unique.
- **LlmService** (`llm.dfy`, module `Llm`) builds the completion request and
  picks the answer out of the response. It turns transport failures into a
  fixed fallback text.

Supporting modules:
- `lang.dfy` (`Lang`) holds Java nulls, exceptions and `String.trim`.
- `entities.dfy` (`Entities`) holds the entities and DTOs.
- `ordering.dfy` (`Ordering`) holds the timestamp sort.
- `users.dfy` (`Users`) holds the user table.

How the model stands in for things it does not run:
- The LLM's HTTP exchange is a function-typed field (`send`, `open`) from the
  request to what came back.
- `UUID.randomUUID()` is a nondeterministic choice of a non-empty id that no
  stored row uses.
- `LocalDateTime.now()` is a parameter `now`. Timestamps are integers.
- The password encoder is an opaque function.
- The knowledge table is a fixed `map<string, string>`.

Behaviour of the code that the model keeps as it is:
- `getCompletion` catches only `RestClientException`, which becomes the
  connection fallback. A null first choice or a null message throws
  `NullPointerException`. A null content is returned as null, and
  `ConcurrentHashMap.put(question, null)` in ChatService then throws.
- `saveHistory` saves a row only when `findByUsername` finds the user.
- `deleteByConversationId` has no ownership check, and no controller
  calls it.
- The code has no LLM provider registry and does not parse the SSE chunks
  it relays.
- `register` never sets the registration time, which the `User` entity
  declares not null. The model keeps this as written in
  `Auth.AuthService.RegisterAsWritten` and uses the corrected
  `Auth.AuthService.Register` elsewhere (see "## Findings").

## Model

| member | source | states |
|---|---|---|
| `Chat.Resolve` | src/main/java/com/xiaomiproject/service/ChatService.java:103-117 | Cache, then knowledge, then LLM: the source is the cache iff the question is cached, and the knowledge table iff it is uncached and known. Afterwards the answer is cached under the question, exactly that key is added, and no existing entry changes. The lookup throws NullPointerException iff the question is in neither store and the LLM gives no non-null answer. |
| `Chat.CacheIsTransparent` | src/main/java/com/xiaomiproject/service/ChatService.java:46-67 | With a fixed knowledge table and LLM, a coherent cache (every entry equals what an uncached lookup gives) changes no answer and no failure, and it stays coherent after the lookup. |
| `Chat.EntryPersists` | src/main/java/com/xiaomiproject/service/ChatService.java:46-67 | An entry in the cache survives any later run of requests with its value unchanged: `put` happens only on a miss. |
| `Chat.RepeatedQuestionHitsCache` | src/main/java/com/xiaomiproject/service/ChatService.java:46-52 | A question answered once is answered again after any other requests from the cache with the same answer; neither the knowledge table nor the LLM is asked. |
| `Chat.HistoryEntry` | src/main/java/com/xiaomiproject/service/ChatService.java:79-89 | A request adds at most one history row. It adds one exactly when the user name resolves, and that row carries that user's id. |
| `Chat.ChatService.constructor` | src/main/java/com/xiaomiproject/service/ChatService.java:32 | The cache starts empty and the service invariant holds. |
| `Chat.ChatService.NewConversationId` | src/main/java/com/xiaomiproject/service/ChatService.java:42 | The generated conversation id is non-empty and used by no stored row. |
| `Chat.ChatService.Lookup` | src/main/java/com/xiaomiproject/service/ChatService.java:103-117 | The cache becomes the cache `Resolve` gives and the answer is its answer; on a throw the cache is unchanged. The knowledge table is consulted once iff the question was not cached. The LLM is called once iff the question was in neither store. |
| `Chat.ChatService.SaveHistory` | src/main/java/com/xiaomiproject/service/ChatService.java:79-89 | Appends exactly the one row (conversation id, question, answer, user id, now) when the user exists, with the next identity value, and appends nothing otherwise. |
| `Chat.ChatService.GetAnswer` | src/main/java/com/xiaomiproject/service/ChatService.java:40-71 | Returns the resolved answer and moves the cache to the resolved cache. It appends one row under a fresh conversation id and the next identity value iff the user exists. When the lookup throws, the cache and history are unchanged. A cached question consults neither the knowledge table nor the LLM; a known one consults the table once and not the LLM. |
| `Chat.ChatService.GetAnswerToRequest` | src/main/java/com/xiaomiproject/service/ChatService.java:90-125 | A null question throws and changes nothing: neither the cache, the history, nor the knowledge or LLM consultation counts. A non-blank request id is kept in the response. A null or blank one is replaced by a fresh id. The response carries the resolved answer, and the history row carries the same id under the next identity value. A cached question consults neither the knowledge table nor the LLM; a known one consults the table once and not the LLM. |
| `Llm.BuildRequest` | src/main/java/com/xiaomiproject/service/LlmService.java:46-48 | The sync request names model "deepseek-chat" and has exactly one message, role "user", content the question. |
| `Llm.RequestDeterminesQuestion` | src/main/java/com/xiaomiproject/service/LlmService.java:46-48 | The request carries the question verbatim: equal requests come from equal questions. |
| `Llm.BuildStreamRequest` | src/main/java/com/xiaomiproject/service/LlmService.java:72-85 | The stream body has the sync request's model and messages and `stream = true`. |
| `Llm.GetCompletion` | src/main/java/com/xiaomiproject/service/LlmService.java:41-64 | A transport error gives the connection fallback and is never rethrown. A null response or null/empty choices give the no-answer fallback. Otherwise the first choice's content is returned, and it may be null. The call throws (NullPointerException) exactly when the first choice or its message is null. |
| `Llm.GetCompletionStream` | src/main/java/com/xiaomiproject/service/LlmService.java:71-97 | Upstream chunks are relayed unchanged and in order. A transport failure adds exactly one final chunk, the connection fallback, and the stream then completes. |
| `Llm.StreamFailureBeforeFirstChunk` | src/main/java/com/xiaomiproject/service/LlmService.java:93-96 | A failure before any chunk yields the one-element stream of the fallback. |
| `Histories.Select` | src/main/java/com/xiaomiproject/repository/ConversationHistoryRepository.java:11-12 | The derived-query filter: every row kept satisfies the condition, and each row satisfying it is kept as many times as it is stored. |
| `Histories.FindByUserIdOrderByTimestampDesc` | src/main/java/com/xiaomiproject/repository/ConversationHistoryRepository.java:11 | Exactly the user's rows (same multiplicities), newest first. |
| `Histories.FindByConversationIdOrderByTimestampAsc` | src/main/java/com/xiaomiproject/repository/ConversationHistoryRepository.java:12 | Exactly the conversation's rows (same multiplicities), oldest first. |
| `Histories.ConversationHistoryRepository.Save` | src/main/java/com/xiaomiproject/repository/ConversationHistoryRepository.java:9 | `save` appends the row under the next identity value, which no stored row has, so stored ids stay distinct. |
| `Histories.DistinctIdsCons` | src/main/java/com/xiaomiproject/entity/ConversationHistory.java:10-12 | A row followed by others has distinct ids exactly when the others do and none shares the row's id. |
| `Histories.SelectKeepsDistinctIds` | src/main/java/com/xiaomiproject/repository/ConversationHistoryRepository.java:15-22 | Keeping some of the rows keeps their identity values distinct, so a delete preserves the identity column's uniqueness. |
| `Histories.ConversationHistoryRepository.DeleteByConversationId` | src/main/java/com/xiaomiproject/repository/ConversationHistoryRepository.java:15-22 | The table becomes its rows outside the conversation, in order, with ids still distinct. The returned count is the number of the conversation's rows. |
| `Histories.DeleteLeavesNone` | src/main/java/com/xiaomiproject/repository/ConversationHistoryRepository.java:15-22 | After the delete, no row of the conversation remains. |
| `Histories.DeleteKeepsOthers` | src/main/java/com/xiaomiproject/repository/ConversationHistoryRepository.java:15-22 | Every row of another conversation remains, as often as it was stored. |
| `Histories.DeleteCountsRemoved` | src/main/java/com/xiaomiproject/repository/ConversationHistoryRepository.java:19-22 | The size drop of the table equals the number of rows the conversation had. |
| `Ordering.SortByTimestamp` | src/main/java/com/xiaomiproject/controller/HistoryController.java:63 | The result is a permutation of the input, sorted by timestamp in the requested direction. |
| `HistoryApi.AbsorbMembers` | src/main/java/com/xiaomiproject/controller/HistoryController.java:53-58 | A grouping step keeps existing entries or takes the new record; it invents nothing. |
| `HistoryApi.AbsorbIds` | src/main/java/com/xiaomiproject/controller/HistoryController.java:53-58 | A grouping step adds the new record's conversation and no other. |
| `HistoryApi.AbsorbKeepsOnePerConversation` | src/main/java/com/xiaomiproject/controller/HistoryController.java:53-58 | A grouping step keeps one entry per conversation. |
| `HistoryApi.AbsorbKeepsEarliest` | src/main/java/com/xiaomiproject/controller/HistoryController.java:57 | After a grouping step, each entry is no later than the new record and than the earlier entry of its conversation. An entry of the new record's conversation that is no later than it stays, so on a tie the earlier entry stays, as `minBy` does. |
| `HistoryApi.GroupEarliestCorrect` | src/main/java/com/xiaomiproject/controller/HistoryController.java:53-61 | Grouping yields one entry per conversation of the input, each an input record and no later than any record of its conversation. |
| `HistoryApi.OnePerConversationNoRepeats` | src/main/java/com/xiaomiproject/controller/HistoryController.java:53-61 | Distinct conversation ids mean no record is listed twice and two listed records of one conversation are the same record. |
| `HistoryApi.ConversationList` | src/main/java/com/xiaomiproject/controller/HistoryController.java:53-64 | Exactly one record per conversation id of the input. Each is an input record, none is listed twice, and each has the minimum timestamp of its conversation. The list is sorted newest first. |
| `HistoryApi.GetUserHistory` | src/main/java/com/xiaomiproject/controller/HistoryController.java:33-67 | No principal gives 401 with no body. An unknown name gives 404 with an empty list. Otherwise 200 with exactly one of the user's own records per conversation of that user, the earliest of each, newest first. |
| `HistoryApi.GetConversationDetails` | src/main/java/com/xiaomiproject/controller/HistoryController.java:68-73 | Always 200 with every row of the conversation, whoever owns it, oldest first. |
| `ChatApi.Precheck` | src/main/java/com/xiaomiproject/controller/ChatController.java:25-35 | No principal gives 401 "未经授权，请先登录。" whatever the question. Then a null or blank question gives 400 "问题内容不能为空。". The request goes through exactly when there is a principal and the question has a char above U+0020. |
| `ChatApi.ChatController.AskQuestion` | src/main/java/com/xiaomiproject/controller/ChatController.java:22-40 | A refused request leaves the service and the history untouched. An accepted one resolves the question once, as `getAnswer(question, principal name)`, and returns 200 with the answer. A service exception propagates. |
| `Lang.Trim` | src/main/java/com/xiaomiproject/controller/ChatController.java:33 | `trim` yields the contiguous part of the string between a prefix and a suffix of chars at most U+0020, with no such char at either end of the result. It is empty exactly when every char is at most U+0020. |
| `Lang.LongerThanAll` | src/main/java/com/xiaomiproject/service/ChatService.java:97 | Some length exceeds every string in a finite set of ids, so a fresh id always exists. |
| `Users.FindByUsername` | src/main/java/com/xiaomiproject/repository/UserRepository.java:12 | Finds a row with that name when there is one, and gives null exactly when no row has it. |
| `Users.AddKeepsUnique` | src/main/java/com/xiaomiproject/entity/User.java:19 | Adding a user under a name not yet present keeps user names unique. |
| `Users.UserRepository.Save` | src/main/java/com/xiaomiproject/entity/User.java:19-28 | A row without a registration time (not-null column) or with a taken name (unique column) is refused and nothing changes. Otherwise the user is appended under the next identity value. |
| `Auth.NewUser` | src/main/java/com/xiaomiproject/service/AuthService.java:26-31 | The new user has the requested name, the encoded password and role "ROLE_USER". No registration or login time is set. |
| `Auth.RegisteredUser` | src/main/java/com/xiaomiproject/service/AuthService.java:26-31 | The same user with its registration time set to the current time and no login time. |
| `Auth.AuthService.RegisterAsWritten` | src/main/java/com/xiaomiproject/service/AuthService.java:19-34 | As written, every call throws and adds no user: a taken name throws "Error: Username is already taken!", and a fresh name is refused by the table because the registration time is null. |
| `Auth.FindAdded` | src/main/java/com/xiaomiproject/service/AuthService.java:21-33 | A user added under a fresh name is what `findByUsername` then returns. |
| `Auth.AuthService.Register` | src/main/java/com/xiaomiproject/service/AuthService.java:19-34 | With the registration time set: a taken name throws "Error: Username is already taken!" and changes nothing. Otherwise exactly one user is added, with the encoded password, role "ROLE_USER" and the current registration time, and can then be found by name. User names stay unique either way. |

## Findings

| source | as written | input that shows it | evidently intended | confidence | as-written member | corrected member |
|---|---|---|---|---|---|---|
| src/main/java/com/xiaomiproject/service/AuthService.java:26-33 | `register` saves a `User` whose `registrationTime` is null, but src/main/java/com/xiaomiproject/entity/User.java:27 declares the column `nullable = false`, so `save` refuses it | any `RegisterRequest` whose user name is not yet taken, on an empty table | the registration time is set to the current time before `save`, and the user is stored | medium: depends on Hibernate's nullability check or the generated NOT NULL column; not executed | `Auth.AuthService.RegisterAsWritten` | `Auth.AuthService.Register` |

## Left out

- HTTP and JSON: `RestTemplate`, `WebClient`, headers, the API key and URL are not modelled. The exchange is a function parameter from the request to what came back.
- `DashScopeApi` and the `LlmApi` interface are not part of this model. No provider registry exists in the code.
- Concurrency: `ConcurrentHashMap` and the async thread pool are modelled sequentially. Two simultaneous misses on one question are not modelled.
- `Chat.CacheIsTransparent`: holds only because the model's LLM is a fixed function and its knowledge table never changes. A real LLM may answer the same question differently, and then the cache freezes the first answer.
- `Chat.ChatService.GetAnswer`: its question is a non-null string. Its only caller, `askQuestion`, rejects a null question first.
- `Chat.ChatService.NewConversationId`: the generated id is fresh with respect to stored rows. The 36-char UUID format is not modelled.
- The knowledge table is a map. Duplicate questions in the table, which make `findByQuestion` throw, are not modelled.
- Database failures other than the unique user name and the not-null registration time are not modelled.
- `ChatResponse.java` and `RegisterRequest.java` are not part of this model. They are modelled from their uses, `new ChatResponse(answer, conversationId)` and the getters `getUsername`/`getPassword`.
- `Users.UserRepository.Save`: models the unique name and the not-null registration time. The other not-null columns (name, password, conversation id) are strings that are never null in the model.
- Ties in timestamp order: the database and the `groupingBy` hash map leave the order of equal timestamps unspecified. The model fixes one order, and its contracts state only sortedness and permutation.
- Spring's translation of an escaping exception into an HTTP 500 response is not modelled. An exception appears as `Thrown`.
- Spring Security configuration, `UserDetailsServiceImpl`, sessions, login and the last-login update, BCrypt itself (an opaque `encode`), timeouts, console logging and the front end are not modelled.
