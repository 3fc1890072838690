# Verified kernels of the agent host

Dafny models of the stateful parts of the Python agent host, with proofs of what each part keeps over
every run. `dafny verify dfyconfig.toml` checks the project.

The loops and mutable objects of the source are methods and classes here. Each method is proved against a
function of its inputs and old state, and the properties are lemmas about that function over all inputs,
runs or stores.

| file | models |
|---|---|
| `Text`, `TextMeaning`, `Numbers`, `Ids`, `Nodes` | Python string operations and what they keep, minimum and maximum, record ids, memory nodes and their recency order |
| `Chunking`, `ChunkTiling`, `ChunkChoice` | the speech chunker, the tiling of the text by its chunks, and where it cuts and joins |
| `SpeechPosition`, `Interruption`, `SpokenWords`, `SpokenHeard` | chunk offsets found by search, the report of the last fully spoken word, what a word is and when it is spoken, and that its samples were heard |
| `LiveConversation`, `LiveContents`, `LiveMerge`, `LiveReplies`, `LiveRuns` | live messages and what is stored of them, their merge with persisted history, when an active reply survives it, and runs of captures and resolutions |
| `VoiceLoop`, `VoiceExits` | the speculative voice session over event streams, its failed exit, and the captures that set the mode |
| `WhereClause`, `WhereNames`, `WhereMeaning` | the WHERE-clause compiler and a semantics for what it emits |
| `Retrieval`, `RetrievalMarks`, `RetrievalSnapshot`, `RetrievalLaws`, `RetrievalStability`, `RetrievalMonotone`, `RetrievalRepeat`, `RetrievalExact`, `RetrievalShared` | graph memory retrieval, its read marks, its selection laws, and on which graphs it is exact and repeatable |
| `RetrievalMeaning`, `RetrievalWanted` | what a result holds and which nodes are returned, in terms of their own tags, times and texts |
| `RetrievalForest`, `RetrievalRuns` | the writers of the memory graph, over whose runs it stays a tree |
| `Publication`, `PublicationExact` | filesystem-memory publication as one transaction, and what it stores column by column |
| `SeedTable`, `Seeding`, `SeedingLaws`, `SeedingFixpoint`, `SeedingClash`, `SeedingContents`, `SeedWording`, `SeedSearch` | provider and task seeding, what it leaves field by field, when it reaches a fixpoint, and its searches as compiled queries |
| `TaskHistory`, `TaskHistoryLog`, `TaskPrimitives` | the dispatcher and the history log that it writes, reading it back, and what each primitive does |
| `Samples`, `Playback`, `WakeBuffer` | the playback queue and the wake-word buffer over flat sample sequences |
| `Borsh`, `BorshNormalize`, `BorshText` | length-prefixed string rewriting, the rewrites themselves, and what they do to a text |

Four claims one might expect are false of the code, and the project gives the input and the exact condition:

- A merged history can lose an active reply (`LiveReplies.ReplyCanBeLost`). `LiveReplies.ActiveReplyKeptIff` says from
  the inputs exactly when a key's active reply is kept, `LiveReplies.SortedReplyKeptIff` does so for any number of
  active replies when the persisted copies are in stored order, and `LiveReplies.LatestReplyKept` derives that the
  usual stored forms keep it.
- Two voice controls can be undecided at once (`VoiceLoop.TwoCanBeUndecided`); `VoiceLoop.AtMostOneUndecidedIff` gives
  the exact condition on the event stream.
- A second seeding run can write again (`SeedingFixpoint.TwoDescriptionsNeverSettle`,
  `SeedingFixpoint.PaddedAlwaysCreated`). `SeedingClash.SeedingSettlesFreshIff` gives the exact condition on the inventory
  and the catalog for every store without a provider under the built-in provider's key, such as the empty one
  (`SeedingClash.FirstSeedingSettlesIff`); `SeedingFixpoint.SeedingSettlesIff` gives it for every other store and
  inventories without an entry under that key. What is left is such an entry on a store that already holds a provider
  under the key: whether it settles depends on the providers stored under it.
- A retrieval can return a node that the store before it does not select, or return more when repeated
  (`RetrievalShared.SmallestExample`), since a read with one conversation moves a message past the read cutoff for
  another. `RetrievalShared.RetrieveFaithfulIff` gives the exact condition: with nodes of one role and no read cutoff in
  the future it never happens if and only if conversations that share a message share all of them and no memory of the
  current session belongs to another one. Every store that the writers of the source reach meets it
  (`RetrievalRuns.RunFaithful`), since each of them relates a node that it has just created; a graph that breaks it must
  be written from outside. On every graph, with no read cutoff in the future, `RetrievalRepeat.SelectedIsReturned` and
  `RetrievalRepeat.RepeatReturnsMore` hold.

## Model

| member | source | states |
|---|---|---|
| Chunking.SplitLongFragment | agent-host/src/reframe_agent_host/speech/chunking.py:80-92 | the cutting loop terminates and yields the pieces of the stripped fragment |
| Chunking.AddPieces | agent-host/src/reframe_agent_host/speech/chunking.py:31-38 | the inner packing loop packs the pieces of one sentence onto the open chunk exactly as the packing function does |
| Chunking.PackSentences | agent-host/src/reframe_agent_host/speech/chunking.py:29-41 | the main loop equals splitting all sentences and packing all pieces |
| Chunking.SpeechChunks | agent-host/src/reframe_agent_host/speech/chunking.py:10-41 | refuses exactly the limits below 1, otherwise returns the chunks of the cleaned text |
| ChunkTiling.ChunksTile | agent-host/src/reframe_agent_host/speech/chunking.py:10-104 | for every text and limits from 1 on, the chunks laid end to end give the cleaned text, at most one space dropped between neighbours; every chunk fits its limit and ends at a word boundary unless its window has no usable space |
| ChunkTiling.FirstSplitIndexBoundary | agent-host/src/reframe_agent_host/speech/chunking.py:52-77 | the first cut of a clean text is at a space or is forced at full width |
| ChunkTiling.SplitIndexBoundary | agent-host/src/reframe_agent_host/speech/chunking.py:95-104 | the same for later cuts |
| ChunkTiling.SentencesTile | agent-host/src/reframe_agent_host/speech/chunking.py:29-41 | the pieces of the sentences tile the text that is left after the first fragment |
| ChunkTiling.PackTiles | agent-host/src/reframe_agent_host/speech/chunking.py:31-40 | packing never joins two pieces that the text does not separate by a space |
| ChunkChoice.SplitIndexExact | agent-host/src/reframe_agent_host/speech/chunking.py:95-104 | helper of the cutting loop: which separator a long sentence is cut at: last comma in reach, else last dash, else last space, else full width |
| ChunkChoice.PunctuationBreakExact | agent-host/src/reframe_agent_host/speech/chunking.py:52-58 | the punctuation cut is the end of the first match whose end is in reach, and absent exactly when there is none |
| ChunkChoice.FirstSplitIndexExact | agent-host/src/reframe_agent_host/speech/chunking.py:52-77 | the order in which the first cut prefers punctuation, conjunctions, a space and the full width |
| ChunkChoice.SentencesExact | agent-host/src/reframe_agent_host/speech/chunking.py:30-30 | the sentence split cuts at every sentence end and nowhere else, and drops only the whitespace run there |
| ChunkChoice.PackIsGreedy | agent-host/src/reframe_agent_host/speech/chunking.py:29-41 | each chunk joins as many of the next pieces as fit, and at least one |
| Text.CleanFixed | agent-host/src/reframe_agent_host/speech/chunking.py:20-20 | whitespace cleaning leaves an already clean text alone |
| TextMeaning.CleanKeepsMarks | agent-host/src/reframe_agent_host/speech/chunking.py:20-20 | cleaning keeps every character that is no whitespace and exactly the places where whitespace separates two of them |
| TextMeaning.SpacesExactly | agent-host/src/reframe_agent_host/speech/chunking.py:20-20 | the whitespace characters by their codes |
| SpeechPosition.ChunkSpans | agent-host/src/reframe_agent_host/speech/kokoro_onnx.py:290-299 | the search loop computes the offsets, falling back to the cursor when nothing is found |
| SpeechPosition.ChunkSpansExact | agent-host/src/reframe_agent_host/speech/kokoro_onnx.py:290-299 | for every text and accepted limits the offsets are exact, start at 0, end at the text's length with gaps of nothing or one space, the search never falls back, and every chunk fits its limit |
| Interruption.LastSpokenWordDetail | agent-host/src/reframe_agent_host/speech/kokoro_onnx.py:306-337 | the scanning loops compute the last fully spoken word and its index |
| Interruption.ScanWords | agent-host/src/reframe_agent_host/speech/kokoro_onnx.py:328-333 | the word loop of one chunk stops at the first word past the limit |
| Interruption.QueueChunks | agent-host/src/reframe_agent_host/speech/kokoro_onnx.py:93-131 | chunk offsets and sample ranges recorded while speaking, up to an interruption |
| Interruption.Speak | agent-host/src/reframe_agent_host/speech/kokoro_onnx.py:67-160 | cleaning, chunking, locating and queueing together |
| Interruption.SpokenFurthest | agent-host/src/reframe_agent_host/speech/kokoro_onnx.py:306-337 | the report is some spoken word's and no spoken word lies further on |
| Interruption.ReportAlignedAndMonotone | agent-host/src/reframe_agent_host/speech/kokoro_onnx.py:265-337 | the word is the slice of the cleaned text that ends at the reported index, and playing more samples or queueing more chunks never moves the index back |
| Interruption.ReportComplete | agent-host/src/reframe_agent_host/speech/kokoro_onnx.py:306-337 | a fully played text is reported up to its last alphanumeric character |
| SpokenWords.MatchesExactly | agent-host/src/reframe_agent_host/speech/kokoro_onnx.py:16-16 | the matches are exactly the whole words, from left to right: word characters and single links between them, going no further on either side |
| SpokenWords.CoveredOnce | agent-host/src/reframe_agent_host/speech/kokoro_onnx.py:16-16 | every letter or digit lies in exactly one match |
| SpokenWords.SpokenExactly | agent-host/src/reframe_agent_host/speech/kokoro_onnx.py:315-333 | a word counts as spoken as soon as its share of the chunk's samples is played, and no sooner |
| SpokenWords.ReportExactly | agent-host/src/reframe_agent_host/speech/kokoro_onnx.py:306-337 | nothing is reported until a whole word is spoken, and then a spoken one, quoted as it stands, after which no other ends |
| SpokenHeard.ReportWasHeard | agent-host/src/reframe_agent_host/speech/kokoro_onnx.py:93-131 | after a reset, with the chunks' samples enqueued in order and any callbacks between, a reported word is a word of a recorded chunk, and the samples heard hold at least as large a share of that chunk's samples, from its first on, as the word's end takes of its characters |
| SpokenHeard.ResetForgets | agent-host/src/reframe_agent_host/speech/playback.py:48-54 | whatever was played before, a reset leaves the queue as new |
| LiveConversation.LiveConversationContext.Add | agent-host/src/reframe_agent_host/agent_flow/live_conversation.py:27-60 | the whole new log: a blank text or missing conversation adds nothing, the capture time is forced past the last one, a malformed id raises after the clock moved |
| LiveConversation.LiveConversationContext.Resolve | agent-host/src/reframe_agent_host/agent_flow/live_conversation.py:62-66 | only the given capture time leaves the active set |
| LiveConversation.LiveConversationContext.ActiveHumanReplyCreatedAt | agent-host/src/reframe_agent_host/agent_flow/live_conversation.py:68-81 | the active list of a conversation in capture order, or the id error |
| LiveConversation.LiveConversationContext.Merge | agent-host/src/reframe_agent_host/agent_flow/live_conversation.py:83-136 | the merged history, or the untouched one, or one built from live messages alone |
| LiveConversation.ReplacePersistedActiveReply | agent-host/src/reframe_agent_host/agent_flow/live_conversation.py:163-179 | the backward scan drops the last stored copy of a reply unless it already carries the capture time |
| LiveConversation.AppendMissing | agent-host/src/reframe_agent_host/agent_flow/live_conversation.py:110-127 | the counting loop appends exactly the live messages that the kept ones do not account for |
| LiveConversation.AddKeepsValid | agent-host/src/reframe_agent_host/agent_flow/live_conversation.py:27-60 | adding keeps capture times strictly increasing and active times human |
| LiveContents.AddStores | agent-host/src/reframe_agent_host/agent_flow/live_conversation.py:27-60 | the stored message field by field: its conversation, role, words one space apart, and a capture time after every other and not before the clock |
| LiveContents.MergedComesFrom | agent-host/src/reframe_agent_host/agent_flow/live_conversation.py:83-148 | every merged message is a persisted one unchanged or shows a live one, with the capture as both times, unread |
| LiveMerge.MergeByKey | agent-host/src/reframe_agent_host/agent_flow/live_conversation.py:83-136 | the exact merged history of each key: its kept copies, then its live messages from that count on |
| LiveMerge.MergeLaw | agent-host/src/reframe_agent_host/agent_flow/live_conversation.py:83-136 | for every key the merged count is max(P - R, L) with R at most the active live copies |
| LiveMerge.MergeOrder | agent-host/src/reframe_agent_host/agent_flow/live_conversation.py:83-136 | the result is a subsequence of the persisted history followed by a subsequence of the live one |
| LiveReplies.ActiveReplyKeptIff | agent-host/src/reframe_agent_host/agent_flow/live_conversation.py:110-179 | the only active reply of a key keeps its capture time exactly when a persisted copy already carries it, or the persisted copies, less one if any was stored at or after the capture, are at most as many as the live messages before it |
| LiveReplies.SortedReplyKeptIff | agent-host/src/reframe_agent_host/agent_flow/live_conversation.py:110-179 | for any number of active replies, copies in stored order: the newest copies that pair with the oldest active captures, each stored at or after its own, are replaced, and a live message keeps its capture time exactly when an older copy carries it or the older copies are at most as many as the live messages before it |
| LiveReplies.ReplyCanBeLost | agent-host/src/reframe_agent_host/agent_flow/live_conversation.py:110-127 | for every key and three increasing times, two persisted copies around the capture make the active reply disappear from the merge |
| LiveReplies.LatestReplyKept | agent-host/src/reframe_agent_host/agent_flow/live_conversation.py:110-179 | if persisted copies are stored forms of distinct live messages and only the latest one is active, its own capture time is in the merge |
| LiveRuns.RunValid | agent-host/src/reframe_agent_host/agent_flow/live_conversation.py:27-66 | capture times strictly increase over every run, whatever the wall clock does |
| LiveRuns.ActiveListExact | agent-host/src/reframe_agent_host/agent_flow/live_conversation.py:27-81 | over every run the active list is exactly the unresolved human replies of the conversation, in capture order |
| LiveRuns.ResolveRemovesOne | agent-host/src/reframe_agent_host/agent_flow/live_conversation.py:62-81 | resolving one reply changes no other reply of any conversation |
| VoiceLoop.CaptureSession | agent-host/src/reframe_agent_host/commands/voice_loop.py:80-168 | the event loop over its own variables is the step function folded over the events, with the cancellation on failure |
| VoiceLoop.RunTracks | agent-host/src/reframe_agent_host/commands/voice_loop.py:80-160 | the active control, turn and capture are those of the one endpoint that nothing has ended yet |
| VoiceLoop.DecidedExactly | agent-host/src/reframe_agent_host/commands/voice_loop.py:86-140 | which controls are committed and which cancelled, from the event stream alone |
| VoiceLoop.NeverBothDecided | agent-host/src/reframe_agent_host/commands/voice_loop.py:86-168 | no control is both committed and cancelled, also when the loop fails |
| VoiceExits.AbortDecidesExactly | agent-host/src/reframe_agent_host/commands/voice_loop.py:160-168 | when the loop fails exactly the controls that an event cancelled and the live one are cancelled, and the commits and everything else are as without the failure |
| VoiceExits.AbortUndecidedExactly | agent-host/src/reframe_agent_host/commands/voice_loop.py:160-168 | a failing loop leaves undecided exactly what a confirmation of another turn dropped |
| VoiceExits.ModesExact | agent-host/src/reframe_agent_host/commands/voice_loop.py:131-148 | the captures that set the mode, in order: a confirmation's own, else that of the live endpoint, and every mode switch's |
| VoiceLoop.UndecidedExactly | agent-host/src/reframe_agent_host/commands/voice_loop.py:131-140 | a control is undecided exactly if it is live or a confirmation of another turn dropped it |
| VoiceLoop.AtMostOneUndecidedIff | agent-host/src/reframe_agent_host/commands/voice_loop.py:86-140 | at most one control is ever undecided exactly when no endpoint follows a dropping confirmation |
| VoiceLoop.AgreeingStreamUndecided | agent-host/src/reframe_agent_host/commands/voice_loop.py:86-140 | if every confirmation names the active turn, only the active control is undecided |
| VoiceLoop.TwoCanBeUndecided | agent-host/src/reframe_agent_host/commands/voice_loop.py:131-140 | a stream with two undecided controls |
| VoiceLoop.FlowsExact | agent-host/src/reframe_agent_host/commands/voice_loop.py:86-160 | the flows started are those of the endpoints and mode switches with a capture, in order |
| VoiceLoop.PrepareChargedOnce | agent-host/src/reframe_agent_host/commands/voice_loop.py:100-148 | model-prepare time goes to exactly the first flow |
| WhereClause.QueryBuilder.AddTagClauses | agent-host/src/reframe_memory/search.py:86-103 | the clauses and variables that a tag search adds |
| WhereClause.QueryBuilder.AddContentClauses | agent-host/src/reframe_memory/search.py:106-145 | one disjunction per field with terms; fails exactly on an invalid field path |
| WhereClause.QueryBuilder.AddStringSearchClause | agent-host/src/reframe_memory/search.py:148-178 | one disjunction over fields and terms, or the reason of refusal |
| WhereClause.BuildWhere | agent-host/src/reframe_memory/search.py:63-83 | the builder computes the compiled query, or the first refusal |
| WhereMeaning.CompiledMeaning | agent-host/src/reframe_memory/search.py:63-178 | for every search and document the compiled clause under its variable map means the direct predicate; every referenced variable is bound and no two terms share one |
| WhereNames.NameInjective | agent-host/src/reframe_memory/search.py:118-172 | distinct term positions get distinct variable names |
| WhereMeaning.BindBinds | agent-host/src/reframe_memory/search.py:118-178 | bindings with distinct addresses do not overwrite each other |
| WhereMeaning.IntersectFull | agent-host/src/reframe_memory/search.py:95-99 | the all-of clause holds exactly when every term is a tag, with multiplicity |
| WhereMeaning.AllOfExact | agent-host/src/reframe_memory/search.py:95-99 | on duplicate-free tags it means: no repeated term, and every term a tag |
| WhereMeaning.IntersectNonEmpty | agent-host/src/reframe_memory/search.py:91-103 | the any-of and none-of clauses mean sharing some, or no, tag |
| Retrieval.CandidateMatches | agent-host/src/reframe_memory/retrieval_terms.py:32-100 | the early exits and loops of candidate matching decide the filter predicate |
| RetrievalMeaning.MatchesMeans | agent-host/src/reframe_memory/retrieval_terms.py:32-100 | a node matches exactly if it carries no excluded tag, passes the times, and has a wanted tag or one of the named fields equal to an equality term or containing a containment term in any case |
| RetrievalMeaning.ResultAnswers | agent-host/src/reframe_memory/graph_retrieval.py:45-231 | every result on every graph: each task, flag, matched id and memory in it belongs to a node that is wanted by its own tags, times and named fields, the tasks are all such, the lists run from the most recent, and the memories of the current session are all that it has |
| RetrievalWanted.WantedIsReturned | agent-host/src/reframe_memory/graph_retrieval.py:87-225 | on every graph with no read cutoff in the future, everything that comes with a wanted session, conversation, message or memory is returned |
| RetrievalWanted.ReturnedExactly | agent-host/src/reframe_memory/graph_retrieval.py:87-225 | and nothing else, if conversations that share a message share all of them |
| Retrieval.CollectFieldValues | agent-host/src/reframe_memory/retrieval_terms.py:103-109 | the values of the existing fields, in order |
| Retrieval.GraphMemoryRetriever.RetrieveContext | agent-host/src/reframe_memory/graph_retrieval.py:45-56 | the whole result and new store of a retrieval, or the id error after the task marks |
| Retrieval.GraphMemoryRetriever.PastConversationContext | agent-host/src/reframe_memory/graph_retrieval.py:87-108 | the loop over sessions, threading the store through every step |
| Retrieval.GraphMemoryRetriever.ContextOf | agent-host/src/reframe_memory/graph_retrieval.py:110-141 | one session with what is below it, its marks, or nothing |
| Retrieval.GraphMemoryRetriever.ConversationsOf | agent-host/src/reframe_memory/graph_retrieval.py:143-176 | the loop over conversations with their message candidates and marks |
| Retrieval.GraphMemoryRetriever.MessagesOf | agent-host/src/reframe_memory/graph_retrieval.py:178-202 | all messages of a conversation with the ids of those that match, or nothing |
| Retrieval.GraphMemoryRetriever.MemoriesOf | agent-host/src/reframe_memory/graph_retrieval.py:204-225 | the matching memories of a session, marked |
| Retrieval.GraphMemoryRetriever.MarkRecordIdsRead | agent-host/src/reframe_memory/graph_retrieval.py:227-230 | one update per distinct id, moving the clock |
| RetrievalMarks.RetrieveMarksReturned | agent-host/src/reframe_memory/graph_retrieval.py:45-231 | on every graph, the nodes whose read mark changes are exactly the nodes returned |
| RetrievalSnapshot.RetrieveIsSnapshot | agent-host/src/reframe_memory/graph_retrieval.py:58-225 | on a tree the marking walk returns what a plain filter selects from the store before the call |
| RetrievalRepeat.SelectedIsReturned | agent-host/src/reframe_memory/graph_retrieval.py:58-225 | on every graph, shared nodes included, with no read cutoff after the clock: every node that the store before the call selects is returned, and of the tasks no other |
| RetrievalRepeat.RepeatReturnsMore | agent-host/src/reframe_memory/graph_retrieval.py:45-231 | on every such graph and request, a second identical retrieval returns at least the nodes of the first |
| RetrievalExact.RetrieveExact | agent-host/src/reframe_memory/graph_retrieval.py:58-225 | on graphs with shared nodes as well, if conversations that share a message share all of them, exactly the nodes that the store before the call selects are returned |
| RetrievalExact.RetrieveRepeats | agent-host/src/reframe_memory/graph_retrieval.py:45-231 | if moreover no memory of the current session belongs to another one, a second identical retrieval returns the same tasks and the same nodes of the past context |
| RetrievalExact.NothingNew | agent-host/src/reframe_memory/graph_retrieval.py:143-231 | on such a graph reading selected nodes selects nothing new |
| RetrievalShared.RetrieveFaithfulIff | agent-host/src/reframe_memory/graph_retrieval.py:45-231 | every store and request is answered exactly and repeatably if and only if the graph meets both conditions |
| RetrievalShared.SharedMessageBreaks | agent-host/src/reframe_memory/graph_retrieval.py:178-202 | on any graph, a message that two conversations share beside one that they do not: a store on which the call is not exact or not repeatable |
| RetrievalShared.SharedMemoryBreaks | agent-host/src/reframe_memory/graph_retrieval.py:204-225 | the same for a memory of the current session that belongs to another session |
| RetrievalShared.SmallestExample | agent-host/src/reframe_memory/graph_retrieval.py:178-202 | a session with two conversations and two messages on which the claim fails |
| RetrievalForest.ForestIsTree | agent-host/src/reframe_memory/graph_retrieval.py:58-225 | if every node hangs in one place and plays one role, the graph is a tree whichever session is current |
| RetrievalRuns.MemoryGraph.CreateSession | agent-host/src/reframe_memory/sessions.py:67-87 | the new node and its edge from the root |
| RetrievalRuns.MemoryGraph.CreateConversation | agent-host/src/reframe_memory/conversations.py:74-104 | the new node and its edge from an existing session, or the error |
| RetrievalRuns.MemoryGraph.AddMessage | agent-host/src/reframe_memory/conversations.py:106-144 | the new node at its position in an existing conversation, whose update time moves, or the error |
| RetrievalRuns.MemoryGraph.CreateMemory | agent-host/src/reframe_memory/session_memories.py:72-102 | the new node and its edge from an existing session, or the error |
| RetrievalRuns.ConversationStored | agent-host/src/reframe_memory/conversations.py:74-104 | the new conversation as it was given, unread, last in its session; no other node or list changes |
| RetrievalRuns.MessageStored | agent-host/src/reframe_memory/conversations.py:106-144 | the new message as it was given, unread, at its place, and the conversation's update time moved; nothing else changes |
| RetrievalRuns.MemoryStored | agent-host/src/reframe_memory/session_memories.py:72-102 | the new memory likewise |
| RetrievalRuns.DeletedExactly | agent-host/src/reframe_agent_host/memory_browser/records.py:132-146 | a deleted node is gone from the nodes and every list, as is what hung below it, and no other node changes |
| RetrievalRuns.RunIsForest | agent-host/src/reframe_memory/conversations.py:74-144 | over every run of creations, updates, deletions, reads and retrievals from an empty database every node hangs in one place and plays one role |
| RetrievalRuns.RunFaithful | agent-host/src/reframe_memory/graph_retrieval.py:45-231 | after every such run a retrieval with no read cutoff in the future is exact, and repeating it returns the same nodes in the same order with matches only added |
| RetrievalLaws.RetrieveReturns | agent-host/src/reframe_memory/graph_retrieval.py:58-225 | on a tree, exactly which nodes are returned: a session or conversation if and only if it or something eligible below it matches |
| RetrievalMonotone.RetrieveMonotone | agent-host/src/reframe_memory/graph_retrieval.py:58-225 | on every graph whose nodes each play one role, an earlier cutoff, another positive hint, one excluded tag less or another domain never removes a node, although the looser run marks more nodes on its way |
| RetrievalMonotone.SessionsInStep | agent-host/src/reframe_memory/graph_retrieval.py:87-176 | the stricter and the looser run stay in step over any sessions: every match of the first is one of the second at the same point |
| RetrievalLaws.MatchesLooser | agent-host/src/reframe_memory/retrieval_terms.py:32-100 | a node that passes a filter passes every looser one |
| RetrievalStability.RetrieveStable | agent-host/src/reframe_memory/graph_retrieval.py:87-231 | on a tree, a second identical retrieval returns the same nodes in the same order, and its matches only grow, although the first moved their read marks |
| Publication.FilesystemMemoryStore.RunTransaction | agent-host/src/reframe_memory/filesystem_publication.py:56-95 | the conflict test, the upsert of every column, and the replaced root edge |
| Publication.FilesystemMemoryStore.PublishMemory | agent-host/src/reframe_memory/filesystem_memories.py:65-85 | transaction and check together; anything but success leaves the store as it was |
| Publication.PublishKeepsValid | agent-host/src/reframe_memory/filesystem_publication.py:56-95 | a stored identity stays that of the stored content, with one root edge |
| Publication.ErrorsLeaveStore | agent-host/src/reframe_memory/filesystem_memories.py:65-85 | an error of any kind changes nothing, legacy records included |
| Publication.CollisionExactly | agent-host/src/reframe_memory/filesystem_memories.py:65-85 | for a new record or one with a stored identity, a collision is raised exactly on conflict |
| Publication.OutcomeExactly | agent-host/src/reframe_memory/filesystem_memories.py:65-85 | the outcome for every record, legacy ones included: published without a conflict; with one, collision, unreadable or already published as the record that stays parses |
| Publication.ParseStored | agent-host/src/reframe_memory/filesystem_memories.py:130-154 | a stored memory parses back to itself |
| Publication.RepublishChangesNothing | agent-host/src/reframe_memory/filesystem_publication.py:77-95 | equal content and tags leave the whole store as it was, `updated_at` included |
| Publication.UpdatedOnlyOnChange | agent-host/src/reframe_memory/filesystem_publication.py:84-88 | `updated_at` moves only together with content or tags |
| Publication.RunKeeps | agent-host/src/reframe_memory/filesystem_publication.py:56-95 | over every run identities once set and creation times never change, and published records keep one root edge |
| Publication.PublishedForGood | agent-host/src/reframe_memory/filesystem_publication.py:56-95 | a publication without conflict fixes its record's identity and root edge through any later run |
| PublicationExact.StoredExactly | agent-host/src/reframe_memory/filesystem_publication.py:77-93 | what a publication without conflict stores, column by column, and that no other record or edge changes |
| PublicationExact.UpdatedByLastChange | agent-host/src/reframe_memory/filesystem_publication.py:84-88 | over every run the update time is that of the last publication that created the record or changed its content or tags |
| PublicationExact.ConflictMeans | agent-host/src/reframe_memory/filesystem_publication.py:56-76 | in a valid store a record conflicts exactly if it is another memory's, by identity, or by spelling where none is stored |
| PublicationExact.NextPublication | agent-host/src/reframe_memory/filesystem_memories.py:65-85 | after one publication, only a checkpoint of the same manifest over other memories collides with it |
| PublicationExact.RecordMeans | agent-host/src/reframe_memory/filesystem_memories.py:174-189 | two memories share a record exactly if they are the same directory or the same checkpoint |
| SeedTable.LookupIsNewest | agent-host/src/reframe_memory/providers.py:157-175 | querying, ordering by recency and scanning for an exact match finds the most recent node that is both |
| SeedTable.NewestExact | agent-host/src/reframe_memory/providers.py:164-170 | a lookup returns a match no older than any other, and nothing only if there is none |
| SeedTable.SettleSettles | agent-host/src/reframe_agent_host/memory_seed/opencode_go.py:63-87 | one create-or-update step makes its record the most recent match, up to date |
| SeedTable.SettleExactly | agent-host/src/reframe_agent_host/memory_seed/opencode_go.py:63-87 | one step adds one new record, or renews one under its id with its creation and read times kept, or changes nothing, and reports which |
| SeedTable.SettleFrame | agent-host/src/reframe_agent_host/memory_seed/opencode_go.py:63-87 | the step leaves every lookup alone that shares no match with it |
| SeedTable.SettledKept | agent-host/src/reframe_agent_host/memory_seed/opencode_go.py:76-85 | helper of the fixpoint: a step changes nothing exactly when its record is settled |
| Seeding.MemoryDatabase.EnsureOne | agent-host/src/reframe_agent_host/memory_seed/opencode_go.py:63-87 | search, scan, and create, update or keep one provider |
| Seeding.MemoryDatabase.EnsureOpencodeGoProviders | agent-host/src/reframe_agent_host/memory_seed/opencode_go.py:27-60 | the loops over models and efforts ensure every wanted provider in order, then prune |
| Seeding.MemoryDatabase.Prune | agent-host/src/reframe_agent_host/memory_seed/opencode_go.py:141-158 | deleting one found provider after another leaves exactly those outside the family or with an allowed key |
| Seeding.MemoryDatabase.EnsureMagicProviders | agent-host/src/reframe_agent_host/memory_seed/core_task_seed.py:106-128 | the magic provider is created, brought up to date or kept |
| Seeding.MemoryDatabase.ProviderForDefinition | agent-host/src/reframe_agent_host/memory_seed/core_task_seed.py:75-148 | the provider that serves a definition, or nothing |
| Seeding.MemoryDatabase.EnsureTasks | agent-host/src/reframe_agent_host/memory_seed/core_task_seed.py:37-64 | the cached task loop does what the uncached one does, and stops at the first missing provider |
| Seeding.MemoryDatabase.EnsureCoreTasks | agent-host/src/reframe_agent_host/memory_seed/core_task_seed.py:34-72 | the three phases in order |
| SeedingLaws.AllowedExactly | agent-host/src/reframe_agent_host/memory_seed/opencode_go.py:161-168 | the pruning loop allows exactly the keys of what the seeding loop wants |
| SeedingLaws.ProviderFoundIff | agent-host/src/reframe_agent_host/memory_seed/core_task_seed.py:75-103 | after the provider phases a provider is found exactly for the models and efforts that the inventory offers |
| SeedingFixpoint.SeedingSucceedsIff | agent-host/src/reframe_agent_host/memory_seed/core_task_seed.py:34-103 | with clean tags in the inventory, whatever keys it uses, a run from any valid store raises nothing exactly when the inventory offers what every task asks for |
| SeedingFixpoint.PaddedNeverServed | agent-host/src/reframe_agent_host/memory_seed/core_task_seed.py:75-103 | a demand for a padded model id or effort is never met, offered or not |
| SeedingFixpoint.RunQuietIff | agent-host/src/reframe_agent_host/memory_seed/core_task_seed.py:34-72 | a run finds its providers and writes nothing exactly when every wanted record is settled and nothing is left to prune, and then the records stay as they were |
| SeedingFixpoint.SeedingSettlesIff | agent-host/src/reframe_agent_host/memory_seed/core_task_seed.py:34-72 | from every store whose tags are stored as written, for inventories without an entry under the built-in provider's key: after a successful run a later run writes nothing if and only if the tags are clean and definitions of one name want the same task from the same provider |
| SeedingClash.SeedingSettlesFreshIff | agent-host/src/reframe_agent_host/memory_seed/core_task_seed.py:34-72 | for any inventory and catalog: after a successful run on a store without providers under the built-in provider's key, a run at any later time writes nothing if and only if the tags are clean, definitions of one name want the same task from the same provider, and no entry has that key |
| SeedingClash.FirstSeedingSettlesIff | agent-host/src/reframe_agent_host/memory_seed/core_task_seed.py:34-72 | the same for the first seeding of an empty database, with no condition on the store left |
| SeedingClash.ProvidersSettleFreshIff | agent-host/src/reframe_agent_host/memory_seed/opencode_go.py:27-60 | from such a store the provider phases settle everything they want exactly when the tags are clean and no entry has the built-in provider's key |
| SeedingFixpoint.SeedingSettles | agent-host/src/reframe_agent_host/memory_seed/core_task_seed.py:34-72 | after one successful run from any store, a later run creates, updates and prunes nothing, and every provider left in the family has an allowed key |
| SeedingContents.TasksHoldDefinitions | agent-host/src/reframe_agent_host/memory_seed/core_task_seed.py:37-64 | after a successful run with a clean catalog the most recent task of each name has each field of its definition, and the id of a stored provider that serves its model and effort |
| SeedingContents.ProvidersHoldInventory | agent-host/src/reframe_agent_host/memory_seed/opencode_go.py:102-138 | after a run with a clean inventory every entry's direct and workspace providers and the built-in one are held field by field |
| SeedingFixpoint.TaskSettlesIff | agent-host/src/reframe_agent_host/memory_seed/core_task_seed.py:45-64 | a task that needed writing is settled by it exactly when its tags are clean |
| SeedingFixpoint.ProviderSettlesIff | agent-host/src/reframe_agent_host/memory_seed/opencode_go.py:63-87 | the step for any provider of any inventory entry, padded or blank texts included, settles it exactly when its tags are clean |
| SeedingFixpoint.PaddedAlwaysCreated | agent-host/src/reframe_agent_host/memory_seed/opencode_go.py:63-87 | a padded model id or effort hides the provider from its own search, so every run creates another one |
| SeedingFixpoint.SharedNameNeverQuiet | agent-host/src/reframe_agent_host/memory_seed/core_task_seed.py:45-64 | with two definitions of one name that do not want the same task from the same provider, no run from any valid store is free of writes |
| SeedingFixpoint.TwoDescriptionsNeverSettle | agent-host/src/reframe_agent_host/memory_seed/core_task_seed.py:45-64 | a catalog of two descriptions under one name: from every valid store the run succeeds and writes |
| SeedingLaws.TagsStoredIff | agent-host/src/reframe_memory/providers.py:98-98 | tags are stored as they are written exactly when none is blank, padded or repeated |
| SeedWording.SourceWordingOk | agent-host/src/reframe_agent_host/memory_seed/opencode_go.py:102-138 | the fixed texts of the source meet the conditions of the fixpoint |
| SeedSearch.ProviderQuery | agent-host/src/reframe_memory/providers.py:198-223 | the provider search of seeding, compiled, selects exactly the nodes of the model's predicate |
| SeedSearch.DirectQuery | agent-host/src/reframe_agent_host/memory_seed/core_task_seed.py:82-91 | the same for the search behind a task definition |
| SeedSearch.OtherQueries | agent-host/src/reframe_agent_host/memory_seed/core_task_seed.py:106-138 | the same for the magic provider's searches and the pruning search |
| SeedSearch.SourceFieldsOk | agent-host/src/reframe_memory/providers.py:198-223 | the field names of the source are distinct, valid paths |
| TaskHistory.PrimitiveDispatcher.DispatchResult | agent-host/src/reframe_agent_host/task_execution/primitives.py:73-97 | the dispatch loop: records, session actions, history node and the dispatcher's history id |
| TaskPrimitives.CallDoes | agent-host/src/reframe_agent_host/task_execution/primitives.py:99-235 | what the call of each name does: the text it takes from its payload, the message or memory it leaves and nothing else, and its record |
| TaskHistory.PrimitiveDispatcher.AppendHistoryNode | agent-host/src/reframe_memory/task_history.py:94-134 | a new node, its numbered action edges, and a history edge at the next position |
| TaskHistory.PrimitiveDispatcher.HistoryRecords | agent-host/src/reframe_memory/task_history.py:136-172 | the reading loop returns the records in position order |
| TaskHistoryLog.PrimitivesNeutral | agent-host/src/reframe_agent_host/task_execution/primitives.py:99-255 | no primitive touches the task history |
| TaskHistoryLog.DispatchAppends | agent-host/src/reframe_agent_host/task_execution/primitives.py:73-97 | one dispatch appends one record with its return items in order |
| TaskHistoryLog.DispatchesReadBack | agent-host/src/reframe_memory/task_history.py:94-172 | any sequence of dispatches under one history reads back as one record per dispatch, in order, with the dispatched names and outputs |
| Playback.QueuedAudioOutput.EnqueueSamples | agent-host/src/reframe_agent_host/speech/playback.py:56-63 | samples go to the end of the flat queue |
| Playback.QueuedAudioOutput.ClearQueue | agent-host/src/reframe_agent_host/speech/playback.py:48-54 | the queue empties; counters and window only on reset |
| Playback.QueuedAudioOutput.Consume | agent-host/src/reframe_agent_host/speech/playback.py:74-89 | the chunk loop takes the next samples from the front and leaves the rest |
| Playback.QueuedAudioOutput.OnCallback | agent-host/src/reframe_agent_host/speech/playback.py:74-95 | a callback emits the next queued samples padded with zeros and extends the recent window |
| Playback.PlaybackConserves | agent-host/src/reframe_agent_host/speech/playback.py:48-95 | over every run since a reset, enqueued = played + queued + cleared, and the window is the tail of all output |
| Playback.EmitExactly | agent-host/src/reframe_agent_host/speech/playback.py:74-95 | a callback gets exactly the frames it asks for, the queue from the front and then zeros |
| Playback.RecentIsOutputTail | agent-host/src/reframe_agent_host/speech/playback.py:43-46 | after every run the recent samples asked for are the end of everything emitted since the last reset, padding included, as far as the window reaches |
| Playback.PlaybackIsFifo | agent-host/src/reframe_agent_host/speech/playback.py:48-95 | what was heard followed by what is queued is exactly what was sent and not cleared |
| WakeBuffer.PhraseSpotter.Append | agent-host/src/reframe_agent_host/keyphrases/pocketsphinx_phrase.py:63-71 | the buffer stays the last samples of the whole stream, and start + length = processed |
| WakeBuffer.PhraseSpotter.TrimBuffer | agent-host/src/reframe_agent_host/keyphrases/pocketsphinx_phrase.py:113-127 | the loop over frames keeps exactly the last samples |
| WakeBuffer.PhraseSpotter.PhraseSampleSpan | agent-host/src/reframe_agent_host/keyphrases/pocketsphinx_phrase.py:157-165 | the phrase's stream positions are translated by where the buffered tail of the stream starts |
| WakeBuffer.PhraseSpotter.ReplayFrames | agent-host/src/reframe_agent_host/keyphrases/pocketsphinx_phrase.py:129-141 | the buffer from the pre-roll before the phrase boundary on |
| WakeBuffer.PhraseSpotter.ConfirmationFrames | agent-host/src/reframe_agent_host/keyphrases/pocketsphinx_phrase.py:143-155 | the end of the phrase, at most a window long |
| WakeBuffer.TrimFramesFromSample | agent-host/src/reframe_agent_host/keyphrases/pocketsphinx_phrase.py:231-246 | the frames hold the flat samples from the given one on |
| WakeBuffer.TrimFramesBetweenSamples | agent-host/src/reframe_agent_host/keyphrases/pocketsphinx_phrase.py:249-276 | the frames hold the flat samples between the two positions |
| WakeBuffer.ReplayIsStreamSlice | agent-host/src/reframe_agent_host/keyphrases/pocketsphinx_phrase.py:129-165 | replay is the stream from the translated position on, as far as it is buffered |
| WakeBuffer.ConfirmationIsStreamSlice | agent-host/src/reframe_agent_host/keyphrases/pocketsphinx_phrase.py:143-165 | the confirmation slice is the flat slice of the stream, cut to what is buffered |
| WakeBuffer.ConfirmationExactly | agent-host/src/reframe_agent_host/keyphrases/pocketsphinx_phrase.py:143-155 | of a phrase within the buffer, its last window of samples, or all of it |
| Borsh.PackUnpack | agent-host/src/reframe_agent_host/baml_artifacts.py:174-188 | the little-endian length prefix reads back |
| Borsh.ApplyReplacements | agent-host/src/reframe_agent_host/baml_artifacts.py:174-188 | the cursor loop splices every replacement, in ascending order, or fails on a length that does not fit |
| Borsh.RewriteKeepsLayout | agent-host/src/reframe_agent_host/baml_artifacts.py:174-188 | rewriting any set of strings of any layout yields the same layout with the new lengths and all other bytes unchanged |
| Borsh.StringReadsBack | agent-host/src/reframe_agent_host/baml_artifacts.py:130-171 | a string of a layout reads back at its position |
| BorshNormalize.NormalizeEmbeddedSource | agent-host/src/reframe_agent_host/baml_artifacts.py:118-127 | the loop of replacements over the symbol prefixes |
| BorshNormalize.NormalizeShrinks | agent-host/src/reframe_agent_host/baml_artifacts.py:118-127 | no rewrite lengthens the encoded string |
| BorshNormalize.ChangesValid | agent-host/src/reframe_agent_host/baml_artifacts.py:118-188 | the length of a normalized string always fits its prefix |
| BorshNormalize.NormalizeRewrite | agent-host/src/reframe_agent_host/baml_artifacts.py:118-188 | normalizing any strings of any layout succeeds, keeps the layout and does not grow the buffer |
| BorshText.NormalizeExactly | agent-host/src/reframe_agent_host/baml_artifacts.py:118-127 | of a source path, with slashes, everything from the first `baml_src/` on; of any other string, all but the prefixes in front of `baml_src` |
| BorshText.ReplaceExactly | agent-host/src/reframe_agent_host/baml_artifacts.py:118-127 | replacing puts the new text for every occurrence, from the left without overlap, and nothing else |
| BorshText.TextDecodes | agent-host/src/reframe_agent_host/baml_artifacts.py:174-188 | every character of a string reads back from its UTF-8 bytes at the place after those before it |

## Left out

- Locks, threads and asyncio scheduling: each locked section or query is one step, and the voice loop's queue is the sequence of events it delivers.
- SurrealDB: queries are updates of maps, lists and edge sequences; the audio devices, speech models and the generated BAML client are outside.
- The Rust crates: only stubs of them are in the repository.
- `str.lower` is modelled on ASCII letters; a content field that is missing reads as the text `NONE`.
- Tasks of the voice loop are not separate from their controls, with which they are cancelled; the text of events is not modelled.
- The played-sample ratio is an exact fraction rounded down, not a floating-point one.
- ISO timestamps are integers, or a stored text as an opaque stamp; comparing naive with aware times is not modelled.
- Milliseconds are sixteen samples each, the rate of the wake-word stream; sample blocks are one-dimensional.
- WhereClause.BuildWhere: terms are cleaned once before compilation instead of inside each clause builder, with the same result.
- RetrievalStability.RetrieveStable: the order and the matches only on trees; for which graphs with shared nodes the returned nodes repeat is RetrievalShared.RetrieveFaithfulIff.
- RetrievalLaws.RetrieveReturns: only on trees, where it needs no condition on the cutoffs; for graphs with shared nodes see RetrievalExact.RetrieveExact, with no read cutoff in the future, and RetrievalRepeat.SelectedIsReturned.
- RetrievalExact: not stated for graphs in which one node plays two roles, which the typed record contents rule out.
- RetrievalMonotone.RetrieveMonotone: not stated for graphs in which one node is, say, both a message and a conversation, which the typed record contents rule out.
- RetrievalMarks.RetrieveMarksReturned: says nothing about the marks made before a malformed current session id raises.
- SeedingFixpoint.SeedingSettlesIff: not stated for an inventory entry under the built-in provider's key on a store that already holds a provider under that key; SeedingClash.SeedingSettlesFreshIff covers the stores without one.
- SeedingFixpoint.SeedingSucceedsIff: only for clean inventories; for a padded model id or effort it is false (SeedingFixpoint.PaddedNeverServed).
- RetrievalRuns: the provider that a new task must name, without which it is not created; edges other than the searched ones; a message is placed by its index in position order.
- Publication: values of stored content that are not texts, which the code turns into texts.
- Path canonicalisation and the digest of record ids are parameters; memory-browser edits, which bypass publication, are not steps of a run.
- Seeding: the read marks that its first search leaves, which nothing in seeding reads; the edges from providers to tasks; the check that a task's provider is under the root, which cannot fail for a provider just found there; and the id tuples that a run returns, beyond the change made for each record.
- Seeding: writes have strictly increasing times, as `time::now()` does at the resolution of the database.
- Seeding: the model inventory and the task catalog, which are generated bindings, are parameters.
- TaskHistory: dispatching no result at all, which does nothing; existence checks of sessions and conversations; the rendering of a history; the recording of interruptions in the background; the JSON preview of a payload is a parameter.
- Borsh: the heuristic search for the prefix nearest to a marker, which can misidentify a string; positions are given as a layout, as in the String rule of the Borsh specification.
- CLI parsing, printing, debug dumps, benchmarks, monitor and geolocation detection.
