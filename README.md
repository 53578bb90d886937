# Dast: a verified model of the rulebook assistant's back end

Dast answers questions about a Persian book of religious rulings (a *risale*,
made of numbered problems, *masaleh*). Administrators upload Word or PDF
files. The back end cuts each file into chunks, stores them with their
embeddings, and answers chat questions by retrieval plus a streamed
language-model reply. It also keeps short per-session memories, rate-limits
requests, cleans user input and keeps small JSON files of users, tickets, bug
reports, broadcasts, settings and logged questions. Two front-end helpers
escape text before it is put into HTML.

This project restates that core in Dafny and proves what it promises:

- **Query handling** (`QueryText`, `Retrieval`, `Search`, `Rerank`, `Ranking`).
  Covers small-talk replies, colloquial fixes, synonym expansion, language
  detection, problem-number extraction, exact lookup, multi-query semantic
  search with merging, the similarity filter, the exact-first ordering and
  the model-based reranking. Scores from the embedding store and the
  language model are parameters.
- **The answer stream** (`AnswerStream`). `answer_question_stream` becomes a
  method whose result is the sequence of events it yields. Its contract says
  which branch it took, that exactly one terminal event ends a finished turn,
  that the `found_in_docs` flag matches the "not found" phrases, that the
  sources are distinct and at most six, and what is recorded in the session
  memory.
- **Ingestion** (`Normalization`, `Keywords`, `Ingestion`, `PdfExtraction`,
  `IngestFile`). Covers text normalisation, keyword extraction, the
  problem-number reader, the Word and PDF chunkers, chunk ids and batching of
  the store writes.
- **Security** (`Security`, `RateLimit`). Covers input, username and password
  sanitising, the rehash test and the client-address choice. It also models
  the SQLite rate-limit tables as a class whose methods are proved against
  functions on the tables.
- **Session memory** (`SessionMemoryModel.SessionMemory`). A class with the
  store dictionary as a map field and an invariant kept by every method.
- **Route handlers** (`Records`, `Analytics`, `AppStore.AppData`). The JSON
  files become fields of one object. Each handler is a method proved against
  a function on the old contents.
- **HTML escaping** (`Escape`, `AdminApp`). `esc` becomes a chain of
  replacements. It is proved equal to a per-character map, and escaping is
  proved reversible.

Similarities are integers in thousandths (0.15 is `150`, 1.0 is `1000`).
Times are integers in seconds. Strings are `seq<char>`.

## Model

| member | source | states |
|---|---|---|
| QueryText.IsSmallTalkSpec | dast/back/retriever.py:92-99 | No reply when the stripped, lower-cased question is longer than 70 characters or contains no greeting as a word. Otherwise the reply is that of the first greeting in table order, and that greeting occurs in the question |
| QueryText.SmallTalkInsideWord | dast/back/retriever.py:96-98 | As written, the check is a plain substring test: "اسلام" (Islam) gets the reply for the greeting "سلام", which it contains, though not as a word |
| QueryText.FirstContainedSpec | dast/back/retriever.py:96-98 | The substring lookup finds nothing exactly when no key occurs in the text. Otherwise it gives the reply of the first key that occurs |
| QueryText.IsSmallTalkAsWrittenSpec | dast/back/retriever.py:92-99 | As written: no reply when the stripped, lower-cased question is longer than 70 characters or contains no key anywhere. Otherwise the reply of the first key occurring in it, even inside a word |
| QueryText.IsSmallTalkImpliesAsWritten | dast/back/retriever.py:96-98 | Every question the whole-word check answers, the written check answers too |
| QueryText.NormalizeColloquial | dast/back/retriever.py:199-205 | Result is the colloquial fixes applied in table order, runs of `؟ ? !` collapsed to one `؟`, and the ends stripped. The result has no two adjacent marks and no other `?`/`!` |
| QueryText.ExpandQuery | dast/back/retriever.py:208-217 | Result starts with the query. It is unchanged exactly when no expansion word occurs in it. Otherwise it is the query, a space, and the synonyms of every matching word in table order |
| QueryText.ExpansionsMembers | dast/back/retriever.py:210-213 | An expansion is present exactly when its word occurs in the query |
| QueryText.DetectLanguageIff | dast/back/retriever.py:220-231 | Persian exactly when there is at least one Arabic-block letter and the Latin letters do not outnumber them |
| QueryText.ExtractProblemNumberSpec | dast/back/retriever.py:260-271 | None exactly when no pattern matches anywhere. Otherwise it is the leftmost match of the first pattern that matches, and every earlier pattern matches nowhere |
| QueryText.ExtractProblemNumberRoundTrip | dast/back/retriever.py:262 | "مسئله n" yields n for every natural n |
| Search.SearchByNumber | dast/back/retriever.py:323-343 | The chunks the store's lookup returns, in its order, each marked exact with similarity 1.0 and otherwise unchanged. A store failure yields the empty list |
| Search.SearchByNumberHits | dast/back/retriever.py:324-337 | From a store whose lookup returns only chunks of the asked number, every result is a chunk of that number, exact, with similarity 1.0 above the threshold, one per stored chunk |
| Search.MergeCorrect | dast/back/retriever.py:372-385 | After merging, every stored chunk hit by some query appears once, with the highest similarity any query gave it |
| Search.SemanticSearchCorrect | dast/back/retriever.py:347-390 | An empty store or a failing embedding call gives []. Otherwise the result is sorted by falling similarity, has distinct chunks, and holds exactly the best hit of each chunk any query returned |
| Search.SemanticSearchMarked | dast/back/retriever.py:384 | Every semantic hit is marked semantic |
| Rerank.RerankedCorrect | dast/back/retriever.py:403-428 | A permutation of its input. Two or fewer chunks, or a failed model call, leave the order alone. Otherwise the order is a stable sort by model score, where a chunk without a score gets 5 |
| Rerank.RerankChunks | dast/back/retriever.py:421-425 | The loop that pairs each chunk with its score, followed by the sort, returns `Reranked`: the stable descending sort by score |
| Rerank.SmartRerankCorrect | dast/back/retriever.py:394-400 | Three or fewer chunks are returned as they are. A lead above 0.15 returns the first six. A lead below 0.15 returns `rerank` of the first eight: their stable sort by score, or them unchanged when scoring fails, a permutation either way. A lead of exactly 0.15 returns one of the two. The result is never longer than its input and is empty only for empty input |
| Retrieval.ProblemNumber | dast/back/retriever.py:436-439 | The number of the original question, else that of the normalised one. A zero counts as none, as Python's `or` treats it |
| Retrieval.QueriesCorrect | dast/back/retriever.py:446-451 | At most four queries, no duplicates, and exactly the non-empty ones among the original, the normalised, the formal and the keyword query |
| Retrieval.SectionFilter | dast/back/retriever.py:454-455 | The analysis' section is the filter exactly when it is a known section |
| Retrieval.FoundCorrect | dast/back/retriever.py:441-466 | With the corrected per-chunk key: distinct keys, the exact hit (if any) first and the only exact one, and every semantic candidate represented by a chunk with its own source and chunk index |
| Retrieval.FoundAsWrittenCorrect | dast/back/retriever.py:441-466 | With the key as written: distinct keys, the exact hit (if any) first and the only exact one, and every semantic candidate represented only up to its source, problem number and first fifteen characters |
| Retrieval.KeptCorrect | dast/back/retriever.py:474-476 | If some chunk reaches the threshold, exactly those chunks are kept. Otherwise the five most similar are kept, sorted, and no dropped chunk is more similar than the last kept one |
| Retrieval.SelectCorrect | dast/back/retriever.py:478-486 | At most eight chunks, all kept ones, non-empty for non-empty input. With a passing exact hit, it comes first and is followed by at most four non-exact chunks |
| Retrieval.FullSearch | dast/back/retriever.py:432-486 | The method's result is the selection applied to the candidates collected under the corrected per-chunk key |
| Retrieval.FullSearchCorrect | dast/back/retriever.py:432-486 | End to end, with the corrected key: at most eight results, all from the candidates. With an exact hit it is first and no other result is exact. Without one no result is exact |
| Retrieval.PrefixKeyDropsChunk | dast/back/retriever.py:463-466 | Two different explanatory chunks of one file, with equal first fifteen characters, collapse to one under the source's key. The per-chunk key keeps both |
| AnswerStream.StreamTokens | dast/back/retriever.py:674-682 | Cancelled exactly when the flag is seen before the tokens run out. The events are the non-empty tokens. The answer is their concatenation, and the whole reply when not cancelled |
| AnswerStream.Generate | dast/back/retriever.py:659-682 | Starts with the "generating" status. Finishes exactly when neither cancelled nor failed. A failure ends with the single error event "خطا: …" |
| AnswerStream.SourceKeyInjective | dast/back/retriever.py:688 | The key `{source}_{num}` tells sources apart: equal keys mean equal file and number |
| AnswerStream.CollectSources | dast/back/retriever.py:684-696 | The sources are `FirstSources` of the chunks: one per file and problem number, in order of first appearance, each made from the first chunk with that key. They are pairwise distinct and no more than the chunks. Each chunk is carried by a source and each source comes from a chunk |
| AnswerStream.Recorded | dast/back/retriever.py:700-701 | An exchange is recorded exactly when there is a session and the answer is non-empty. It holds the question and the answer's first 300 characters |
| AnswerStream.AnswerByNumber | dast/back/retriever.py:545-606 | The fast path: one terminal event at the end unless cancelled. A `done` carries the whole reply, the numbered sources of every chunk (at most six) and "found" |
| AnswerStream.Candidates | dast/back/retriever.py:623-626 | The chunks are `CandidateChunks`: the full search, or when it is empty the fallback five-result search filtered at similarity 0.10 |
| AnswerStream.AnswerFromChunks | dast/back/retriever.py:628-712 | No chunks gives "not in the risale" and not found. Otherwise `found_in_docs` holds exactly when no "not found" phrase is in the answer. The `done` event is `ChunksDone`: the first six of `FirstSources` of the chunks, and the first five Persian keywords. The exchange is recorded exactly when a `done` follows a non-empty chunk list |
| AnswerStream.AnswerBySearch | dast/back/retriever.py:608-712 | The normal path. At most one terminal event, and only last. It is missing only if cancelled or if the embedding call raised. A `done` event is `ChunksDone` of `CandidateChunks`, and the exchange is recorded exactly when that `done` follows non-empty candidates |
| AnswerStream.AnswerFromDocuments | dast/back/retriever.py:544-712 | The fast path is taken exactly when the question or its search form names a number whose lookup is non-empty, as `if prob_num` and `if chunks` decide. The `done` event is `DoneEvent` and the exchange is recorded exactly when a fast-path `done` or a normal-path `done` over chunks is sent |
| AnswerStream.AnswerQuestionStream | dast/back/retriever.py:513-712 | Which of the four branches is taken and when. The fast path is taken exactly when the question is not small talk, the store is non-empty and the asked number has stored chunks. At most one terminal event, and only last. It is missing only if cancelled or if the embedding call raised. After the language step the `done` event is `DoneEvent`: the fast path's numbered sources, or the normal path's de-duplicated sources and keywords. The exchange is recorded exactly when a fast-path `done` or a normal-path `done` over chunks is sent |
| AnswerStream.AnswerFromStore | dast/back/retriever.py:529-712 | The same after the small-talk check. The empty-store reply is given exactly when the store is empty. The fast path is taken exactly when the store is non-empty and the asked number has stored chunks. The `done` event and the record are as above |
| SessionMemoryModel.SessionMemory.constructor | dast/back/session_memory.py:12-16 | An empty store with the given turn and lifetime limits, satisfying the invariant |
| SessionMemoryModel.AppendedCorrect | dast/back/session_memory.py:18-28 | The new entry ends with the truncated exchange (200/300 characters) after the latest earlier exchanges. It holds at most `max_turns` exchanges and is stamped with the time |
| SessionMemoryModel.SessionMemory.AddExchange | dast/back/session_memory.py:18-28 | Only the session's entry changes. Every entry keeps at most `max_turns` truncated exchanges |
| SessionMemoryModel.LinesOrder | dast/back/session_memory.py:39-44 | The context holds, for each exchange in order, the question line and then the answer line |
| SessionMemoryModel.SessionMemory.GetContext | dast/back/session_memory.py:30-45 | Unknown session: "" and no change. Expired session: "" and the entry is removed. Otherwise the joined lines and no change. The invariant is kept |
| SessionMemoryModel.SessionMemory.ClearSession | dast/back/session_memory.py:47-49 | Removes exactly that session and keeps the invariant |
| SessionMemoryModel.LivePartition | dast/back/session_memory.py:51-61 | Live and expired sessions split the store |
| SessionMemoryModel.SessionMemory.Cleanup | dast/back/session_memory.py:51-61 | The store keeps exactly the live sessions. The count returned is the number removed |
| Security.SanitizeInputCorrect | dast/back/security.py:186-203 | Empty input gives "". Refused, with status 400, exactly when a dangerous pattern matches the cut and cleaned text. Otherwise the result is no longer than the input or the limit, has no NUL or control character, uses only input characters and has stripped ends |
| Security.SanitizeInputPrefix | dast/back/security.py:191 | Only the first `max_len` characters matter |
| Security.UsernameNewlineAccepted | dast/back/security.py:206-212 | As written, `$` also matches before a final newline: 49 letters and a newline, followed by more text, passes and keeps the newline |
| Security.SanitizeUsernameCorrect | dast/back/security.py:206-212 | Accepted exactly when the stripped first 50 characters are at least 3 name characters, and then that is the result. A name with a newline is refused |
| Security.UsernameChecksAgree | dast/back/security.py:208 | Without a newline, the written check and the corrected one agree |
| Security.SanitizePassword | dast/back/security.py:215-220 | Accepted, unchanged, exactly when 6 to 128 characters long. Otherwise status 400 |
| Security.NeedsRehashCorrect | dast/back/security.py:257-261 | Never without bcrypt, never for a bcrypt hash, always for a legacy hex digest when bcrypt is loaded |
| Security.ClientIpCorrect | dast/back/security.py:284-291 | A well-formed first forwarded hop is used. Otherwise the peer address, else "0.0.0.0". A used hop is non-empty, has no comma or space, and uses only address characters |
| RateLimit.LimitOf | dast/back/security.py:34 | Every endpoint has a positive limit and window |
| RateLimit.UnknownEndpointIsGeneral | dast/back/security.py:90 | Endpoints other than "ask" and "login" get the general 60 per 60 s |
| RateLimit.RateBlocked | dast/back/security.py:82-86 | A blocked address is refused with 429 and nothing changes |
| RateLimit.RateUnblocked | dast/back/security.py:87-114 | Passes exactly when the recent count is below the limit, and then the request is recorded. At the limit it is refused. At twice the limit the address is blocked for 600 s. An expired block is lifted |
| RateLimit.LoginAfterCorrect | dast/back/security.py:119-147 | Success clears the address' failures. Five recent failures block it for 900 s and refuse. Otherwise the failure is recorded |
| RateLimit.CleanupCorrect | dast/back/security.py:150-161 | Keeps requests and failures of the last hour and the unexpired blocks. No active block is lost |
| RateLimit.SixthLoginPassesAsWritten | dast/back/security.py:93 | As written, a general request purges every table row older than 60 s. Five logins followed by one general request let a sixth login through within the login window |
| RateLimit.SixthLoginRefused | dast/back/security.py:90-108 | With the purge limited to the endpoint, the same sixth login is refused |
| RateLimit.RateAsWrittenAgrees | dast/back/security.py:87-114 | The written and the corrected check give the same verdict and leave the same blocks and failures. The written one additionally drops the rows of other endpoints older than the checked endpoint's window |
| RateLimit.PruneKeepsWindows | dast/back/security.py:93 | The corrected purge keeps every request still inside its own endpoint's window |
| RateLimit.RateDb.CheckRate | dast/back/security.py:76-114 | The tables and verdict after the call are those of the rate function |
| RateLimit.RateDb.CheckLogin | dast/back/security.py:119-147 | The same for the login function |
| RateLimit.RateDb.Cleanup | dast/back/security.py:150-161 | The same for the cleanup function |
| Normalization.CharMapValuesFree | dast/back/ingestion.py:55-67 | No replacement text contains a mapped character, so one pass leaves none |
| Normalization.Normalize | dast/back/ingestion.py:52-72 | Empty in, empty out. The result has no mapped character, no run of blanks, no run of three newlines and stripped ends |
| Normalization.CollapseNewlinesClean | dast/back/ingestion.py:71 | After collapsing, no three newlines are adjacent, the first character is kept and blank runs stay collapsed |
| Keywords.KeywordsCorrect | dast/back/ingestion.py:75-88 | Fifteen distinct non-stopword words of three or more Persian letters from the text, or all of them when there are fewer, sorted by falling frequency. No unchosen word is more frequent. Ties keep first-seen order |
| Keywords.ContentRankingShape | dast/back/ingestion.py:84-88 | The ranking of the content words has min(15, distinct content words) distinct entries, all content words |
| Keywords.ContentRankingOrder | dast/back/ingestion.py:84-88 | The ranking orders the content words by their count in the text and omits none that is more frequent than one kept |
| Keywords.ExtractKeywords | dast/back/ingestion.py:84-88 | The counting loop computes the ranked keywords |
| Ingestion.ActualProblemNumberSpec | dast/back/ingestion.py:92-106 | The heading-form number, else the leading "n -" number, else the first inline "مسئله n", else the fallback |
| Ingestion.HeadNumberRoundTrip | dast/back/ingestion.py:98 | "مسئله n" yields n |
| Ingestion.LeadNumberRoundTrip | dast/back/ingestion.py:99 | "n- text" yields n |
| Ingestion.Classify | dast/back/ingestion.py:131-138 | Heading styles 1 to 5 map to levels 1 to 4 |
| Ingestion.WordStepEffect | dast/back/ingestion.py:125-191 | A paragraph adds one chunk exactly when it is a problem or a long Normal paragraph. The chunk is a problem chunk exactly when problem-styled. The counter counts problem paragraphs |
| Ingestion.WordCounts | dast/back/ingestion.py:110-193 | Over a document: one chunk per emitting paragraph, the counter equals the number of problem chunks, and every chunk is well formed |
| Ingestion.WordLevels | dast/back/ingestion.py:131-138 | The heading levels after a document are the latest heading of each level not reset by a higher one |
| Ingestion.ExtractWord | dast/back/ingestion.py:110-193 | The paragraph loop computes the scan's chunks |
| PdfExtraction.PdfParagraphsShape | dast/back/ingestion.py:201-203 | Paragraphs come in page order and each is stripped and longer than 30 characters |
| PdfExtraction.PageChunks | dast/back/ingestion.py:203-216 | One page's loop emits a chunk for each long paragraph, numbered on from the counter |
| PdfExtraction.ExtractPdf | dast/back/ingestion.py:196-219 | The page loop computes the records of all long paragraphs |
| PdfExtraction.PdfChunksShape | dast/back/ingestion.py:196-219 | The k-th chunk is problem k+1, of kind pdf, from this source, with the paragraph as raw text and its page as section |
| IngestFile.FormatOf | dast/back/ingestion.py:229-234 | PDF exactly for a `.pdf` suffix in any case. Word for `.docx`/`.doc` otherwise |
| IngestFile.ChunkIdInjective | dast/back/ingestion.py:257 | Chunk ids of one file are distinct |
| IngestFile.EntriesLayout | dast/back/ingestion.py:257-271 | Entry i has id `{filename}_{i}`, chunk index i, page 1 and the chunk's text and number. Ids are pairwise distinct |
| IngestFile.Batches | dast/back/ingestion.py:274-280 | The batches concatenate to the entries. There are ⌈n/20⌉ of them, each the next slice of at most 20 |
| IngestFile.Ingest | dast/back/ingestion.py:223-287 | Unsupported suffix and empty extraction are refused. Otherwise every entry is written in batches and the reported counts equal the chunk count |
| Records.LogEntry | dast/back/main.py:250-260 | The logged question is its first 200 characters, with the user and time |
| Records.LoggedCorrect | dast/back/main.py:250-260 | The log gains the entry at the end and keeps only the latest 10000 |
| Records.NewBroadcast | dast/back/main.py:629-645 | Refused with 400 exactly when title or message is refused by sanitising. Otherwise the broadcast has the id, author and time, with the sanitised title and message |
| Records.PushedCorrect | dast/back/main.py:639-641 | The new broadcast goes first and at most 50 are kept |
| Records.MergedCorrect | dast/back/main.py:538-552 | Only allowed keys are taken from the update. Every other setting is unchanged |
| Records.PublicCorrect | dast/back/main.py:271-274 | The public settings are all settings but the question-length limit, unchanged |
| Records.VisibleCorrect | dast/back/main.py:434-439 | An admin sees every ticket. A user sees exactly their own |
| Records.ReplyingRefusals | dast/back/main.py:452-467 | 404 exactly when no ticket has the id. 403 exactly when a non-admin replies to another's ticket. 400 exactly when sanitising refuses the message of an allowed reply. An allowed, clean reply always succeeds |
| Records.ReplyingAppends | dast/back/main.py:452-467 | A reply appends one message to the first ticket with the id: the caller's name and role, the sanitised text and the reply's time. It also sets the ticket's status: "answered" for an admin, "open" otherwise. Nothing else changes |
| Records.ClosingCorrect | dast/back/main.py:470-478 | 404 exactly when no ticket has the id. Otherwise only the first such ticket changes, to "closed" |
| Records.BugUpdatedCorrect | dast/back/main.py:401-411 | Only the first bug with the id changes: its status and update time. An unknown id changes nothing |
| Records.CreatingCorrect | dast/back/main.py:491-506 | Refusals are 400: bad role, taken name or bad name/password. Success exactly when name and password pass sanitising, the name is free and the role is valid. A new account adds exactly the sanitised name with the role, time and hashed password |
| Records.DeletingCorrect | dast/back/main.py:509-517 | "admin" is refused with 400 and an unknown user with 404. Success exactly for any other existing user, and exactly that user goes, and admin stays |
| AppStore.AppData.constructor | dast/back/main.py:101-118 | Empty files, the default settings and the single admin account |
| AppStore.AppData.LogQuestion | dast/back/main.py:250-260 | The question log becomes the logged function of the old log |
| AppStore.AppData.SendBroadcast | dast/back/main.py:629-645 | Refusal leaves the broadcasts alone. Success pushes the new one and returns its id |
| AppStore.AppData.SaveSettings | dast/back/main.py:538-552 | The loop over the update yields the merged settings |
| AppStore.AppData.Reply | dast/back/main.py:452-467 | The search loop yields the reply function's tickets or its refusal |
| AppStore.AppData.CloseTicket | dast/back/main.py:470-478 | The same for closing |
| AppStore.AppData.UpdateBug | dast/back/main.py:401-411 | The same for bug updates |
| AppStore.AppData.CreateUser | dast/back/main.py:491-506 | The same for account creation |
| AppStore.AppData.DeleteUser | dast/back/main.py:509-517 | The same for deletion |
| AppStore.AppData.Summarize | dast/back/main.py:557-592 | Totals, open counts, today's count, the last seven days' tallies and the ten most frequent words |
| Analytics.Count | dast/back/main.py:585-587 | The count is at most the length. It is the length exactly when all qualify and zero exactly when none do |
| Analytics.TodayIsDailyCount | dast/back/main.py:563-574 | Today's count equals the daily tally of today |
| Analytics.DailyQuestions | dast/back/main.py:569-574 | Sorted days, at most seven, the latest ones, each with its number of questions |
| Analytics.TopKeywords | dast/back/main.py:576-580 | At most ten distinct words longer than two characters from the last 500 questions, by falling count. No omitted word is more frequent |
| Analytics.TopWordsCorrect | dast/back/main.py:576-591 | The ranking of the counted words: ten of them, or all when fewer are distinct; distinct, sorted, maximal, ties in first-seen order |
| Analytics.FieldsCorrect | dast/back/main.py:579 | Every field of `split()` is a non-empty piece of the question without whitespace |
| Analytics.FieldsComplete | dast/back/main.py:579 | Every maximal run of non-whitespace characters is a field of `split()` |
| Ranking.SortDescCorrect | dast/back/main.py:591 | The ranking sort is a stable descending permutation |
| Ranking.RankByCountCorrect | dast/back/ingestion.py:88 | The first n words by falling count, or all of them when there are fewer: distinct, from the input, sorted and maximal, ties in first-seen order |
| Escape.EscSafe | dast/front/js/utils.js:6-14 | Output has no quote, apostrophe or newline. Its only tags are `<br>`. It is never shorter than the input |
| Escape.ChainIsEscapeMap | dast/front/js/utils.js:8-13 | The replacement chain equals escaping each character on its own |
| Escape.UnescapeEsc | dast/front/js/utils.js:6-14 | Escaping is reversible: unescaping the result gives the input back |
| AdminApp.Esc | dast/front/admin/js/admin-app.js:13-21 | The admin helper equals the chat helper, so it is safe and reversible as well |

## Left out

- I/O is not modelled: files, the JSON helpers `rj`/`wj`, SQLite, logging and `print`. The JSON files are object fields and the rate-limit tables are sequences and a map.
- The web layer is not modelled: FastAPI routing, JWT issue and check, `admin_only`, request bodies and HTTP exceptions other than the status codes returned.
- The embedding store is a `Store` value. Its count, its lookup by number and its query answers are given. Embeddings and cosine distance are not computed.
- Every OpenAI call is a parameter: translation, question analysis, reranking scores and the streamed reply tokens. The prompt texts, `SYSTEM_PROMPT`, the language addenda and `analyze_question` itself are not modelled.
- Concurrency is not modelled: the generator, `asyncio.gather` and the locks are sequential. The cancel flag is the first checkpoint at which it is seen set.
- Clocks, uuids and bcrypt are parameters: `now`, `id` and `hash`. `hash_password` and `verify_password` are not modelled.
- Lower-casing is ASCII-only. `\d` covers ASCII, Arabic-Indic and Persian digits. `DANGEROUS_PATTERNS` is an abstract predicate `dangerous` on the cleaned text.
- Similarities are integer thousandths of the store's float, which the source rounds to three places. Differences between them are exact here, while the source subtracts floats.
- Rerank.RerankChunks: the source writes each score into the caller's chunk as `rerank_score`, in place; the model pairs chunk and score in a new value and drops the pairing after the sort. Nothing downstream reads that field.
- Rerank.SmartRerankCorrect: a lead of exactly 0.15 is decided in the source by float subtraction (0.85 − 0.70 is 0.15000000000000002), so either outcome is possible; the contract promises only that it is one of the two.
- AnswerStream.AnswerQuestionStream: the `memory.get_context` call inside the stream is not modelled. Its removal of an expired session is covered by SessionMemory.GetContext alone.
- The routes `submit_bug`, `new_ticket`, `get_ticket`, `change_pw`, `login`, `ask`, file upload and delete, and user listing are not modelled, beyond the pieces they share with modelled ones.
- Analytics.DailyQuestions finds the latest seven days by repeated selection rather than by Python's `sorted`. The result is the same.
- `SECTION_PROBLEM_MAP` is reduced to its key names, which are all the section filter uses.
- IngestFile.Ingest does not model the deletion of a file's old chunks or `save_file_info`. The store writes are returned as batches.
- The exception escaping `answer_question_stream` is modelled as the `raised` result. The generator is documented as turning every failure into an `error` event. The code, however, awaits `get_embeddings` outside any `try`, so an embedding failure propagates. The model follows the code.

- RateLimit.RateAfter: models the purge corrected in the second finding. Only old rows of the checked endpoint are deleted, whereas dast/back/security.py:93 deletes old rows of every endpoint. RateLimit.RateAsWrittenAgrees states how the two differ.
- RateLimit.RateUnblocked: states the corrected purge of RateLimit.RateAfter, not the source's.
- RateLimit.RateDb.CheckRate: performs the corrected purge of RateLimit.RateAfter, not the source's `DELETE` of every endpoint's old rows.
- Retrieval.FoundCorrect: describes the collection under the corrected per-chunk key of the third finding, not the source's prefix key. Retrieval.FoundAsWrittenCorrect states what the prefix key gives.
- Retrieval.FullSearch: collects under the corrected per-chunk key, not the prefix key of dast/back/retriever.py:464.
- Retrieval.FullSearchCorrect: is about the corrected collection of Retrieval.FullSearch.
- AnswerStream.Candidates: runs the corrected full search, not the prefix-key one.
- AnswerStream.AnswerQuestionStream: uses the corrected whole-word small-talk check of the fourth finding and the corrected full search. The source's substring check answers more questions (QueryText.IsSmallTalkImpliesAsWritten, QueryText.IsSmallTalkAsWrittenSpec).
- AnswerStream.AnswerFromStore: runs the corrected full search, not the prefix-key one.
- Records.Creating: uses the corrected username check of the first finding, which refuses a name with a newline. The source accepts 49 letters followed by a newline and more text, and creates the account with the newline. Security.UsernameChecksAgree shows the two checks agree on every name without a newline.
- Records.CreatingCorrect: states the corrected username check of Records.Creating, not the source's.
- AppStore.AppData.CreateUser: creates accounts under the corrected username check of Records.Creating, not the source's.

## Findings

| source | as written | input that shows it | evidently intended | confidence | as-written member | corrected member |
|---|---|---|---|---|---|---|
| dast/back/security.py:208 | `^[a-zA-Z0-9_\-\.]+$` with `re.match`, where `$` also matches before a final newline | 49 letters, a newline, more text: cut to 50 it ends in the newline and is accepted | only name characters, no newline | high (not executed) | Security.UsernameNewlineAccepted | Security.SanitizeUsernameCorrect |
| dast/back/security.py:93 | `DELETE FROM requests WHERE timestamp < now - window` purges every endpoint with the caller's window | five logins, one general request 100 s later, then a sixth login: it passes | purge only the endpoint being checked | high (not executed) | RateLimit.SixthLoginPassesAsWritten | RateLimit.SixthLoginRefused |
| dast/back/retriever.py:464 | de-duplication key `sem_{source}_{problem_number}_{text[:15]}` | two explanatory chunks of one file (number -1) whose section paths share two letters: the second is dropped | one entry per stored chunk, as `search_semantic` keys by `{source}_{chunk_index}` | high (not executed) | Retrieval.PrefixKeyDropsChunk | Retrieval.FoundCorrect |
| dast/back/retriever.py:97 | `if k in q_lower` tests substrings | "اسلام" (Islam) contains "سلام" and gets the greeting reply | a greeting matches only as a whole word | medium (not executed) | QueryText.SmallTalkInsideWord | QueryText.IsSmallTalkSpec |
