# Verification of the Klai provider boundary and ingest text pipeline

This project models the deterministic core of two Klai services in Dafny and proves properties of the model.
`dafny verify dfyconfig.toml` checks all of it. Nothing here runs the services.

## What is modelled

**Context assembly** (`ToolBlocks`, `MessageRepair`, `RepairBlocks`, `RepairInPlace`, `ContextAssembly`,
`ProviderContract`, `SystemText`, `ActiveTurn`). A chat history of any shape becomes one the model provider accepts. A
single repair pass is not enough: the parity step can drop a message after runs were merged. The proofs say what a pass
makes of every message, by position, for exactly which inputs one pass is enough (read off their runs by the guards of
the code), that two passes reach a fixpoint for every input, and that the assembled request meets the provider contract
whenever the history budget is applied. What must not get lost is followed from end to end: the system prompts, the
words of the users, and the calls and results of the turn that is going on. The budget scan is characterised exactly,
and so is the case in which the latest question is lost: a request that still ends in an assistant gets a repair prompt
as its last user message, and its own question then counts as history.

**Masking and restoring personal data** (`SpanSelection`, `Masking`, `MaskRoundTrip`, `Placeholders`, `StreamRestore`,
`StreamingHook`, `AnalysisWindows`, `MapStore`). Span selection, numbered substitution with counters shared by all text
units of a request, the restore by pattern substitution, its chunk-safe streaming form with per-choice buffers and a
one-item lookahead, overlapping analysis windows, and the bounded store of restore maps. The central results are the
round trip of a whole request and the equality of streaming and one-shot restore for every way of cutting a response,
each with its exact condition.

**Markdown chunking** (`Chunker`, `Headings`, `StubMerging`, `ParentChildChunks`, `Documents`). Fenced code, headings,
link blocks, stub merging, the sliding window with its break rules, and the two-level index. The results are
termination, coverage, size bounds and conservation of the text through every stage, and from a document to its
children.

**Conversation language** (`ConversationLanguage`). A hysteresis machine over the user turns, with bounds on how often
it can switch and exactly which evidence a switch needs.

**Account pool** (`MistralPool`). The failover state machine over picks, failures, successes, probe files and time,
with safety over every run of events.

**Derived lines, image rollbacks and login-wall purges** (`CheapLayer`, `RenovateRevert`, `BackfillTasks`). The
strip and append of derived lines, newest-first undo of recorded bumps, and the purge and recover pair.

`Strings` holds the string operations the originals use, `Sets` and `Sequences` facts about sets and sequences.

Code that updates objects, lists or dictionaries in loops is modelled by classes and methods with loops, each proved
equal to a function; the properties are lemmas about those functions.

## Where the code differs from its documentation or its purpose

- A reinforcing vote in the opening window overwrites why the language was set, so the reason of an explicit request is
  reported less long than the documentation of the field says (`RequestReasonIsForgotten`); and a request for the
  language already set is reported although it changed nothing (`NeedlessRequestIsReported`; together
  `RequestReasonIsExact`).
- The documentation says that what the stream holds back is always at least the tail length. It is at most that: a buffer
  whose restored text is shorter is held whole (`ShortBufferHoldsLess`), and the tail length is held exactly when the
  restored text is that long (`SplitSafeTail`). Keys one character longer than the tail are still safe (`StreamIsExact`).
- A repair pass merges runs of one role, yet need not leave alternating roles: it does exactly when no two runs of its
  input clash (`RepairAlternatesUnlessClash`, `OnePassLeavesTwoUsers`), and with the history budget off nothing repairs
  again (`UnbudgetedIsSafeIff`).
- The pool is meant to keep every alias off full accounts, but it records one account per order: where two accounts
  share an order, one of them can be returned while it is full (`SharedOrderLeaks`, and exactly when: `LeakIsExact`).
- The revert goes by the text of a line. Lines of one repository that ever read alike but started differently are not all
  put back (`TellingApartIsExact`, `FollowedLineIsLost`).

## Model

| member | source | states |
|---|---|---|
| ToolBlocks.ReconcileToolBlock | deploy/litellm/klai_context.py:977-1043 | the loop yields the reconciled block, and counts: calls = matched + dropped, results = matched + orphans |
| ToolBlocks.MatchIsSound | deploy/litellm/klai_context.py:993-1020 | every matched call has a result of its own that was free, carrying the id when the call has one; exactly the picked results are used up |
| ToolBlocks.MatchIsComplete | deploy/litellm/klai_context.py:993-1020 | every call is matched or dropped, and no dropped call fits any result that is left over |
| ToolBlocks.MatchKeepsOrder | deploy/litellm/klai_context.py:993-1020 | the matched calls are the calls with some left out, in the same order |
| ToolBlocks.IdsAreExact | deploy/litellm/klai_context.py:952-967 | a call goes by its id, or by the second key where the first is missing or empty; an id of whitespace is none, for calls and for results |
| ToolBlocks.ReconcileAnswers | deploy/litellm/klai_context.py:977-1043 | the block is empty, or starts with the assistant, and its calls and results agree one to one, by id where there is one |
| ToolBlocks.AnsweredIsStable | deploy/litellm/klai_context.py:977-1043 | reconciling is idempotent: a block whose calls and results agree comes back unchanged |
| MessageRepair.RepairMessageSequence | deploy/litellm/klai_context.py:811-927 | the two loops and the parity step compute `Repair` for every list of messages |
| MessageRepair.RepairToolCallParity | deploy/litellm/klai_context.py:1046-1092 | the parity loop computes `Parity`, whose result is always paired |
| MessageRepair.ParityPairs | deploy/litellm/klai_context.py:1046-1092 | after the parity step every assistant call has exactly one result right behind it and no other result is left |
| MessageRepair.PairedMeans | deploy/litellm/klai_context.py:1046-1092 | a paired conversation read position by position: each assistant is followed by as many results as it has calls, with their ids, and each result belongs to an assistant |
| MessageRepair.RepairPairs | deploy/litellm/klai_context.py:811-927 | one repair pairs all calls and drops everything in front of the first user |
| MessageRepair.SequenceNormalises | deploy/litellm/klai_context.py:833-905 | on a paired conversation the sequence step only merges runs: still paired, now alternating, same first and last role, no user put behind a result |
| MessageRepair.RepairReachesFixpoint | deploy/litellm/klai_context.py:811-927 | for every list of messages a third repair changes nothing after the second, and the fixpoint is paired, alternating and starts with a user |
| MessageRepair.SecondPassMerges | deploy/litellm/klai_context.py:811-927 | a second repair changes nothing if and only if the first left the roles alternating |
| RepairBlocks.RepairAlternatesUnlessClash | deploy/litellm/klai_context.py:811-1043 | one repair leaves alternating roles if and only if no two runs of its input clash: two user runs, or a turn that stays without a result and another turn, with only turns between them that vanish (873-876 and 1027-1034) |
| RepairBlocks.OnePassIsEnough | deploy/litellm/klai_context.py:811-927 | a second repair changes nothing if and only if no two runs of the input clash |
| RepairBlocks.ClashNeedsUnmatched | deploy/litellm/klai_context.py:1027-1034 | when no user stands behind a result, a clash needs a turn with calls or results of which nothing can be matched |
| RepairBlocks.RepairEndsOpen | deploy/litellm/klai_context.py:811-1043 | one repair ends in a user or a result if and only if the last run of its input that leaves something is a user run or a turn that keeps results |
| MessageRepair.OnePassLeavesTwoUsers | deploy/litellm/klai_context.py:873-876 | the shortest failure of one pass: user, result, user becomes two adjacent users |
| MessageRepair.RepairKeepsUserWords | deploy/litellm/klai_context.py:833-851 | a repair keeps everything the users wrote, in order, for every list of messages |
| RepairInPlace.RepairIsInPlace | deploy/litellm/klai_context.py:811-1092 | what a repair makes of every message, by position: each run of users is one message with all their texts; of each run of assistants behind a user exactly one speaks - the last, or with results behind the run the last one with calls - and keeps a sound and complete matching of its calls, or its text without calls, or goes when nothing fits and nothing is said; nothing else is left and everything stays in its place |
| RepairInPlace.TextsAreExact | deploy/litellm/klai_context.py:820-830 | the texts that are joined are those of exactly the messages of the role with a text that is not blank, stripped and in order |
| RepairInPlace.ConversationIsExact | deploy/litellm/klai_context.py:820-830 | the conversation is exactly the messages of users, assistants and tools, in order |
| SystemText.RepairKeepsSystemWords | deploy/litellm/klai_context.py:816-835 | a repair keeps every word of every system prompt, in order, for every list of messages |
| SystemText.RepairHasOneHead | deploy/litellm/klai_context.py:913-921 | any system text that is not blank gives one system message, at the head, that says all of it; without any there is none |
| ContextAssembly.Assemble | deploy/litellm/klai_context.py:554-734 | sanitizing, boundary, repair, tail, budget scan, orphan removal and the second repair compute `Assembled` |
| ContextAssembly.SanitizeMessages | deploy/litellm/klai_context.py:362-419 | the loop computes the sanitized list and whether an active tool result was normalised |
| ActiveTurn.SanitizedInPlace | deploy/litellm/klai_context.py:280-419 | sanitizing message by message: a result behind the last user keeps its id and name and shows its stripped text, whole when it fits the bound, else a front of it and the notice, or the placeholder when blank; active calls stay; stale uploads and the tool activity of the history are replaced; the last user stays as it is and nothing changes places |
| ActiveTurn.CutIsShort | deploy/litellm/klai_context.py:293-309 | a result that is too long is cut to its front without trailing blanks and the notice, within the bound where the notice itself fits |
| ContextAssembly.ScanHistory | deploy/litellm/klai_context.py:657-703 | the newest-first scan omits exactly the history up to the cut, and nothing when there is no cut |
| ContextAssembly.OmitLeadingOrphans | deploy/litellm/klai_context.py:737-751 | what is omitted grows to exactly the history in front of the next user |
| ProviderContract.AssembledIsProviderSafe | deploy/litellm/klai_context.py:636-734 | with the budget on, every request with a user becomes: at most one system message, at the head; then a user first, alternating roles, every call with its own results, no user behind a result, a user or result last |
| ProviderContract.UnbudgetedIsSafeIff | deploy/litellm/klai_context.py:645-655 | with the budget off the contract holds if and only if no two runs of the sanitized request clash |
| ProviderContract.UnbudgetedFailureIsUnmatched | deploy/litellm/klai_context.py:645-655 | when it fails, the sanitized request has a turn with calls or results of which nothing can be matched |
| ProviderContract.UnbudgetedCounterexample | deploy/litellm/klai_context.py:645-655 | a call answered under another id, followed by another assistant, breaks the contract when the budget is off |
| ProviderContract.MismatchedRequest | deploy/litellm/klai_context.py:645-655 | such a request: question, call 1, result for 2, answer |
| ProviderContract.SanitizedIsLate | deploy/litellm/klai_context.py:362-419 | after sanitizing no user stands behind a tool result |
| ProviderContract.CutIsExact | deploy/litellm/klai_context.py:666-703 | the cut is the newest history message from which the history up to the latest user no longer fits: in tokens where the counter works throughout, in characters elsewhere |
| ProviderContract.KeptHistoryFits | deploy/litellm/klai_context.py:666-724 | what is kept of the history is a suffix that starts with a user and fits the budget |
| ProviderContract.HistoryIsExact | deploy/litellm/klai_context.py:666-734 | with the budget on, the conversation that is sent is that of the prepared request from one user on, repaired once more: the first user such that all history from it and from every later place on fits |
| ActiveTurn.CompleteIsKept | deploy/litellm/klai_context.py:977-1043 | an assistant whose calls have ids of their own and results behind it keeps all its calls, each with its own result, in call order |
| ActiveTurn.ActiveTurnSurvives | deploy/litellm/klai_context.py:554-734 | end to end: when the turn behind the last user is rounds of calls with ids of their own, each answered, the assembled request ends with all these calls and results, in call order, whatever the budget drops |
| SystemText.SystemPromptsSurvive | deploy/litellm/klai_context.py:554-835 | end to end: the system text of the assembled request is that of the request, with the tool data boundary behind the first prompt exactly when an active result is sent and it is not there yet, and the omission notice at the end exactly when some history does not fit |
| SystemText.AssembledHasOneHead | deploy/litellm/klai_context.py:554-734 | all of it stands in one system message at the head |
| SystemText.PromptComesFirst | deploy/litellm/klai_context.py:554-734 | with one system message at most, the system text of the output starts with that of the request |
| SystemText.BlockWords | deploy/litellm/klai_context.py:754-809 | a system block goes behind the first system text, and keeps it and all others |
| ProviderContract.LatestQuestionSurvives | deploy/litellm/klai_context.py:636-734 | when the last run of the sanitized request that leaves something is a user run or keeps results, the last user message of the output ends with the latest question, whatever the budget |
| ProviderContract.TrailingAssistantRisksTheQuestion | deploy/litellm/klai_context.py:648-734 | otherwise the question is kept if and only if it and what follows it fit the budget; if not, only the repair prompt is left of the user words |
| ProviderContract.TrailingAnswerLosesTheQuestion | deploy/litellm/klai_context.py:648-734 | a question and an answer longer than the character budget: the question is gone |
| SpanSelection.SelectNonOverlapping | deploy/litellm/klai_pii_text_masking.py:87-125 | the selected spans are disjoint, in text order, and every rejected candidate overlaps an accepted one that comes earlier in the priority order |
| SpanSelection.SelectionIsOrderIndependent | deploy/litellm/klai_pii_text_masking.py:87-125 | two orders of the same candidates give the same selection |
| SpanSelection.NeverRestoreWinsTies | deploy/litellm/klai_pii_text_masking.py:98-115 | no restorable span is selected when a never-restore candidate has the same range and score |
| SpanSelection.KeyIsTotal | deploy/litellm/klai_pii_text_masking.py:98-115 | the sort key is a total order that tells all distinct spans apart |
| SpanSelection.SelectionIsExact | deploy/litellm/klai_pii_text_masking.py:98-125 | a candidate is selected if and only if no selected stronger one overlaps it, stronger meaning higher score, then longer, then never restored, then further left, then the type name that sorts first; so a candidate stronger than all it overlaps is always selected |
| Masking.MaskText | deploy/litellm/klai_pii_text_masking.py:128-179 | the masked text is the left-to-right build of the greedy selection, with numbers continuing the shared counters, and the map holds the restorable originals |
| Masking.SubstituteBackToFront | deploy/litellm/klai_pii_text_masking.py:162-179 | substituting from the last span back gives the left-to-right build and its map |
| Masking.PlaceholderIsInjective | deploy/litellm/klai_pii_text_masking.py:155-160 | a placeholder determines its entity type and number |
| Masking.NumbersAreFresh | deploy/litellm/klai_pii_text_masking.py:153-160 | every placeholder of a unit has a number above the counters before it and not above those after it |
| Masking.RangesAreDisjoint | deploy/litellm/klai_pii_text_masking.py:153-160 | placeholders of two units with shared counters never coincide |
| Masking.DecimalReads | deploy/litellm/klai_pii_text_masking.py:155-160 | numbers are written in decimal without leading zeros |
| MaskRoundTrip.PlaceholdersCount | deploy/litellm/klai_pii_enforce.py:602-617 | over a whole request the placeholders of each entity type are numbered 1, 2, 3 in the order of the spans |
| MaskRoundTrip.MaskMessages | deploy/litellm/klai_pii_enforce.py:602-617 | every unit is masked in place with its own selection and the counters so far, and the maps are united |
| MaskRoundTrip.CombinedMapHas | deploy/litellm/klai_pii_enforce.py:602-617 | the united map holds every restorable original of every unit under its own placeholder |
| MaskRoundTrip.RequestRoundTrip | deploy/litellm/klai_pii_enforce.py:602-617 | restoring a masked unit with the united map gives the original with only never-restore spans replaced, when no text in a gap shows a map key |
| MaskRoundTrip.RoundTripIsExact | deploy/litellm/klai_pii_enforce.py:602-617 | for originals without brackets, if and only if no gap shows a map key |
| MaskRoundTrip.NothingRedacted | deploy/litellm/klai_pii_text_masking.py:128-179 | without a never-restore span the redacted text is the original |
| MaskRoundTrip.ShippedPlaceholdersFit | deploy/litellm/klai_pii_text_masking.py:285-287 | placeholders of every shipped entity type, up to five digits, match the pattern and fit the held-back tail |
| MaskRoundTrip.KeysOfRequestFit | deploy/litellm/klai_pii_enforce.py:602-617 | with shipped entity types and fewer than 100,000 instances of each, every key of the united map fits the held-back tail |
| MaskRoundTrip.MaskedRequestStreams | deploy/litellm/klai_pii_enforce.py:602-617 | masking and streaming together: for such a request with bracket-free originals, every cut of every response is restored like the whole if and only if no original occurs inside a key |
| Placeholders.RestoreIsReplace | deploy/litellm/klai_pii_text_masking.py:182-207 | the pattern substitution is the plain left-to-right replacement of the map keys that may be restored |
| Placeholders.PlaceholderIsExact | deploy/litellm/klai_pii_text_masking.py:182-207 | the pattern matches exactly a bracketed type name of capitals, digits and underscores that starts with a capital, an underscore and digits |
| Placeholders.TokenIsBracketed | deploy/litellm/klai_pii_text_masking.py:182 | every match has one `<`, its first character, and one `>`, its last |
| StreamRestore.SplitSafeTail | deploy/litellm/klai_pii_text_masking.py:290-317 | emitted and held text together are the restored buffer; the held part is at most the tail length, and that long exactly when the restored buffer is |
| StreamRestore.ShortBufferHoldsLess | deploy/litellm/klai_pii_text_masking.py:312-314 | a buffer of one character is held whole, shorter than the tail |
| StreamRestore.StreamRefinesRestore | deploy/litellm/klai_pii_text_masking.py:290-317 | for every way to cut a text into chunks, the emitted parts and the restored leftover are the restored whole, when the keys fit and no value can take part in a key |
| StreamRestore.StreamIsExact | deploy/litellm/klai_pii_text_masking.py:290-317 | for bracket-free values, all ways of cutting are safe if and only if every key is at most one longer than the tail and no value occurs inside a key |
| StreamRestore.LongKeyBreaks | deploy/litellm/klai_pii_text_masking.py:285-317 | a longer key has a cut that leaves it unrestored |
| StreamRestore.InnerValueBreaks | deploy/litellm/klai_pii_text_masking.py:290-317 | a value inside a key has a cut that restores text the whole would not show |
| StreamRestore.BracketedValueBreaks | deploy/litellm/klai_pii_text_masking.py:290-317 | a value that is itself a key is restored twice by the stream |
| StreamRestore.UnsettledValueBreaks | deploy/litellm/klai_pii_text_masking.py:290-317 | for any map, a value no longer than the tail that a second restore would change has a cut that changes it |
| StreamRestore.OwnValuesNeverBreak | deploy/litellm/klai_pii_text_masking.py:290-317 | keys that stand for themselves never break a cut, although they are not inert |
| StreamingHook.Absorb | deploy/litellm/klai_pii_enforce.py:851-867 | each delta of an item emits the safe part of its own buffer and keeps the rest; other choices are untouched |
| StreamingHook.Flush | deploy/litellm/klai_pii_enforce.py:872-884 | the last item absorbs what its own choices hold back, and nothing else |
| StreamingHook.RestoreStream | deploy/litellm/klai_pii_enforce.py:851-893 | items come out once, in order, with their choices; a choice reads its restored whole if and only if the last item carries a delta for it or there was nothing to deliver |
| StreamingHook.HookDeliversRestored | deploy/litellm/klai_pii_enforce.py:851-893 | the same, for any output that delivers each choice its own stream and flushed leftover |
| AnalysisWindows.ChunkWindows | deploy/litellm/klai_pii_enforce.py:472-504 | the cores tile the text, each window is its core padded on both sides, and no window exceeds the maximum when twice the overlap is below it |
| AnalysisWindows.KeepOwned | deploy/litellm/klai_pii_enforce.py:527-544 | a window contributes each span exactly as often as it found it, when the span starts in the core |
| AnalysisWindows.CoresAddUp | deploy/litellm/klai_pii_enforce.py:507-544 | for a window-local analyzer the kept spans of the windows add up to those of the whole text |
| AnalysisWindows.AnalyzeSpans | deploy/litellm/klai_pii_enforce.py:508-555 | chunked analysis gives the answers of tiling windows one after the other, and for a window-local analyzer these are the spans of the whole text, each as often |
| MapStore.PiiMapStore.Put | deploy/litellm/klai_pii_map_store.py:99-116 | sweep, drop the own old entry, evict the oldest down to room, append: the new contents in full |
| MapStore.PiiMapStore.Get | deploy/litellm/klai_pii_map_store.py:118-127 | sweep, then the mapping stored under the id, if any |
| MapStore.PiiMapStore.Discard | deploy/litellm/klai_pii_map_store.py:129-132 | exactly the entry with this id goes |
| MapStore.PiiMapStore.SweepExpired | deploy/litellm/klai_pii_map_store.py:87-97 | exactly the entries older than the TTL go, the rest keeps its order |
| MapStore.PiiMapStore.Create | deploy/litellm/klai_pii_map_store.py:71-85 | a bound below one or a TTL that is not positive is refused |
| MapStore.GetAnswersLastPut | deploy/litellm/klai_pii_map_store.py:87-132 | for every run with a monotone clock: get answers if and only if a map was put under the id, not discarded since and not expired, and there were never as many as the maximum of other ids at once that had been put since and not discarded; the answer is the map last put |
| MapStore.StoreStaysBounded | deploy/litellm/klai_pii_map_store.py:87-132 | for every run: at most the maximum of entries, no id twice, in creation order |
| ConversationLanguage.Resolve | deploy/litellm/klai_conversation_language.py:1088-1166 | the decision is read off the replayed state of all user turns, and votes + abstentions is their number |
| ConversationLanguage.ReplayState.CastVote | deploy/litellm/klai_conversation_language.py:991-1048 | one vote takes the state to `Cast`: request, first language, reinforcement, weak vote, window switch or streak |
| ConversationLanguage.ReplayState.AdvanceStreak | deploy/litellm/klai_conversation_language.py:1050-1064 | the streak grows or restarts, and switches when it reaches the switch cost |
| ConversationLanguage.AbstentionsAreInert | deploy/litellm/klai_conversation_language.py:1111-1150 | deleting the abstaining turns changes nothing but the abstention count, from every state |
| ConversationLanguage.SwitchesAreAmortised | deploy/litellm/klai_conversation_language.py:991-1064 | past the window, from every reachable state, m votes without a request switch at most ceil(m/2) times; each request adds at most one |
| ConversationLanguage.ConversationSwitchBound | deploy/litellm/klai_conversation_language.py:991-1064 | a whole conversation with v votes and r requests switches at most (v + 2)/2 + r times |
| ConversationLanguage.SwitchNeedsEvidence | deploy/litellm/klai_conversation_language.py:1010-1064 | past the window a vote leaves the language if and only if it is strong, for another language, and completes a trailing streak of strong votes for that language as long as the switch cost |
| ConversationLanguage.FirstVoteSets | deploy/litellm/klai_conversation_language.py:1023-1026 | the first vote sets the language, weak or strong |
| ConversationLanguage.WeakVotesAreInert | deploy/litellm/klai_conversation_language.py:1034-1040 | a weak vote changes neither an established language nor the count or cost of switches, in no phase; one against the language leaves the streak as well |
| ConversationLanguage.WindowSwitchIsExact | deploy/litellm/klai_conversation_language.py:1034-1046 | among the first three votes the language changes if and only if the vote is strong and for another language, and then to that language at once |
| ConversationLanguage.SwitchesAreChanges | deploy/litellm/klai_conversation_language.py:991-1064 | the reported number of switches is the number of turns at which the language changed |
| ConversationLanguage.CostIsExact | deploy/litellm/klai_conversation_language.py:1049-1064 | a switch costs one strong vote, and two after a switch past the window until the next request |
| ConversationLanguage.MethodIsExact | deploy/litellm/klai_conversation_language.py:991-1064 | the reported method is that of the turn that set or changed the language, or of the last request |
| ConversationLanguage.ReasonIsExact | deploy/litellm/klai_conversation_language.py:1111-1166 | the reported reason, read off the turns |
| ConversationLanguage.EveryTurnCounts | deploy/litellm/klai_conversation_language.py:1111-1166 | votes + abstentions is the number of user turns |
| ConversationLanguage.RequestWins | deploy/litellm/klai_conversation_language.py:991-1009 | an explicit request sets the language at once and resets the streak and the switch cost |
| ConversationLanguage.RequestReasonIsExact | deploy/litellm/klai_conversation_language.py:991-1048 | while the language stays, the reason is that of a request if and only if one was made since, even for the language already set, or brought it in, with no reinforcing vote in the opening window after it |
| ConversationLanguage.RequestReasonIsForgotten | deploy/litellm/klai_conversation_language.py:1024-1031 | without a later switch or request, the reason stays that of the request if and only if no reinforcing vote fell into the opening window after it |
| ConversationLanguage.RequestReasonCounterexample | deploy/litellm/klai_conversation_language.py:1030-1031 | a request and one reinforcing vote are reported as established |
| ConversationLanguage.NeedlessRequestIsReported | deploy/litellm/klai_conversation_language.py:1011-1021 | a vote and a request for the same language are reported as a request |
| MistralPool.KlaiMistralPoolHook.ReloadStatus | deploy/litellm/klai_mistral_pool.py:201-225 | the new verdicts and file time, in every case of a missing, unreadable, unchanged or readable file |
| MistralPool.KlaiMistralPoolHook.IsFull | deploy/litellm/klai_mistral_pool.py:234-248 | the answer is the fullness of the account after the recheck, and at most its own mark is dropped |
| MistralPool.KlaiMistralPoolHook.LowestEligibleOrder | deploy/litellm/klai_mistral_pool.py:260-264 | the lowest known order whose account is not full, or none when all are full |
| MistralPool.KlaiMistralPoolHook.FilterDeployments | deploy/litellm/klai_mistral_pool.py:266-309 | which deployments pass, the target order, what is learned and what the state becomes, branch by branch |
| MistralPool.KlaiMistralPoolHook.LogFailure | deploy/litellm/klai_mistral_pool.py:315-321 | only a 402 of a known deployment marks its account |
| MistralPool.KlaiMistralPoolHook.LogSuccess | deploy/litellm/klai_mistral_pool.py:323-332 | a success clears a mark only when its request began after the mark |
| MistralPool.FullNeedsEvidence | deploy/litellm/klai_mistral_pool.py:227-258 | over every run: an account is full only by a probe verdict, or within 300 seconds of a 402 that no success or verdict has cleared since |
| MistralPool.ProbeComesFromFile | deploy/litellm/klai_mistral_pool.py:201-225 | over every run the verdicts and the file time are those of the last file that was read |
| MistralPool.PickIsLowest | deploy/litellm/klai_mistral_pool.py:260-309 | a returned deployment has the lowest known order whose account is not full |
| MistralPool.PickedAccountIsNotFull | deploy/litellm/klai_mistral_pool.py:260-309 | when every order has one account, the account of a returned deployment is not full |
| MistralPool.LeakIsExposed | deploy/litellm/klai_mistral_pool.py:284-309 | a pick that returns a deployment of a full account has one of an order recorded with another account, and no lower order is recorded with that account |
| MistralPool.LeakIsExact | deploy/litellm/klai_mistral_pool.py:284-309 | when no two accounts in play share a fingerprint, some pick over these deployments returns one of a full account if and only if there is such a deployment |
| MistralPool.SharedOrderLeaks | deploy/litellm/klai_mistral_pool.py:284-309 | a run of one pick from the start: two accounts on one order, the verdict file calls the first one full, and its deployment is returned |
| MistralPool.BusyIsNotFull | deploy/litellm/klai_mistral_pool.py:266-321 | over every run: an order whose account was never reported full is never skipped upward |
| MistralPool.OnlyPaymentRequiredMarks | deploy/litellm/klai_mistral_pool.py:315-321 | a failure that changes anything is a 402 of a known deployment |
| MistralPool.PaymentRequiredBenches | deploy/litellm/klai_mistral_pool.py:249-321 | over every run: after a 402 on an account without a running bench the account is full at every moment of the next 300 seconds, until a request started later succeeds on it or a newer file calls its key working |
| MistralPool.BenchedIsNotPicked | deploy/litellm/klai_mistral_pool.py:266-309 | in that time no pick answers at an order recorded with the account |
| MistralPool.FileIsRead | deploy/litellm/klai_mistral_pool.py:201-240 | a pick looks at the file again after 10 seconds: a missing or newly unreadable file leaves no verdict, a new one its own, one of the known time changes nothing |
| MistralPool.VerdictCounts | deploy/litellm/klai_mistral_pool.py:227-248 | a key the last file calls full is full, and one it calls working after its last 402 is not |
| MistralPool.PickIsExact | deploy/litellm/klai_mistral_pool.py:260-309 | a pick answers with exactly the deployments offered at the lowest known order with a free account, and moves a requested order there; with nothing when none is free |
| MistralPool.OfferIsKnown | deploy/litellm/klai_mistral_pool.py:271-283 | the account of an offered deployment is known by its id afterwards |
| Chunker.SplitBySize | klai-knowledge-ingest/knowledge_ingest/chunker.py:144-178 | the sliding window computes `Split`, and ends: for every text that fits, and for longer ones at every overlap at which each window moves on |
| Chunker.OverlapBoundIsExact | klai-knowledge-ingest/knowledge_ingest/chunker.py:144-178 | for every size, the windows of all texts move on if and only if the overlap is at most half the size (from size 5) or below the size (under 5) |
| Chunker.WindowsCover | klai-knowledge-ingest/knowledge_ingest/chunker.py:144-178 | windows start where the last one ended less the overlap, are at most the size, and reach the end |
| Chunker.EveryPositionCovered | klai-knowledge-ingest/knowledge_ingest/chunker.py:144-178 | every position lies in a window |
| Chunker.PiecesFit | klai-knowledge-ingest/knowledge_ingest/chunker.py:144-178 | the pieces of windows are non-empty and at most the size |
| Chunker.SplitFacts | klai-knowledge-ingest/knowledge_ingest/chunker.py:144-178 | every chunk is at most the size, and non-empty unless a short text is returned whole; a text that is not blank has a chunk that is not blank |
| Chunker.SplitConservesText | klai-knowledge-ingest/knowledge_ingest/chunker.py:144-178 | without overlap the chunks hold all non-whitespace characters once, in order |
| Chunker.CutsSpareParagraphs | klai-knowledge-ingest/knowledge_ingest/chunker.py:150-170 | with paragraphs kept, a cut falls inside one only if it is longer than the size or begins within max(200, overlap + 1) + 2 characters of the window start |
| Chunker.WindowEndIsExact | klai-knowledge-ingest/knowledge_ingest/chunker.py:157-177 | where a window ends, by the characters of the text: at the last paragraph break within the size when it lies past the middle or may be taken early; else behind the last sentence break when that lies past the middle; else at the size |
| Headings.FindCodeBlockRanges | klai-knowledge-ingest/knowledge_ingest/chunker.py:47-89 | the search computes the fenced ranges |
| Headings.CodeRangesAreExact | klai-knowledge-ingest/knowledge_ingest/chunker.py:47-89 | a position is in a range if and only if a reader who tracks the open fence takes it for code |
| Headings.SplitByHeadings | klai-knowledge-ingest/knowledge_ingest/chunker.py:92-135 | the loop with its heading stack computes `AllSections` of the headings outside code |
| Headings.EnclosingIsExact | klai-knowledge-ingest/knowledge_ingest/chunker.py:125-131 | a heading is in the path of the text behind it if and only if no later heading is of its level or above |
| Headings.EnclosingGrows | klai-knowledge-ingest/knowledge_ingest/chunker.py:125-131 | levels strictly grow along a path |
| Headings.LiveIsExact | klai-knowledge-ingest/knowledge_ingest/chunker.py:106-117 | the headings outside code and no others, in order |
| Headings.PathsAreExact | klai-knowledge-ingest/knowledge_ingest/chunker.py:114-135 | each section in order is a stretch between heading lines, trimmed and not blank, and its path joins the titles of exactly the headings in front of it that have no later one of their level or above, in text order |
| Headings.GapsTileTheText | klai-knowledge-ingest/knowledge_ingest/chunker.py:114-135 | the gaps and the lines of the headings outside code tile the text, for all matches in text order |
| Headings.SplittingLosesNothing | klai-knowledge-ingest/knowledge_ingest/chunker.py:114-135 | the sections hold all non-whitespace characters between the heading lines outside code, in order |
| Headings.LinkBlocksNeverEmptyADocument | klai-knowledge-ingest/knowledge_ingest/chunker.py:273-286 | a document keeps a section: exactly its prose in order when it has any, else all its sections |
| Headings.CleanSections | klai-knowledge-ingest/knowledge_ingest/chunker.py:359-366 | cut, drop and merge: the output is never empty, its texts are the kept sections group by group, and output + dropped + merged is the total |
| StubMerging.MergeStubs | klai-knowledge-ingest/knowledge_ingest/chunker.py:289-349 | consecutive groups of sections; the text of each output is exactly the bodies of its group, once and in order, with the titles of the stubs in front of theirs; each stub goes forward when eligible and back only otherwise; what stays short has no eligible neighbour; output = input - merged |
| StubMerging.Settle | klai-knowledge-ingest/knowledge_ingest/chunker.py:317-329 | a stub without an eligible section behind it goes back when it may, else stands alone; the text of its group is again exactly its bodies and titles |
| StubMerging.JoinFlattens | klai-knowledge-ingest/knowledge_ingest/chunker.py:311-312 | joining texts that are joined already is joining all their parts |
| StubMerging.LinesAreExact | klai-knowledge-ingest/knowledge_ingest/chunker.py:317-348 | the lines of a group are its bodies in order, each behind its own last heading unless it gives the group its path or stands right in front of its own subsection |
| StubMerging.EligibleIsExact | klai-knowledge-ingest/knowledge_ingest/chunker.py:258-306 | a stub may join a section right under it or a peer under the same heading, by the characters of the paths; top-level headings are no peers |
| StubMerging.StubIsShort | klai-knowledge-ingest/knowledge_ingest/chunker.py:230-251 | a stub has fewer than 200 characters |
| ParentChildChunks.ChunkWithParents | klai-knowledge-ingest/knowledge_ingest/chunker.py:393-436 | the two lists agree with the pieces of the sections: texts, paths, character offsets, positions, index ranges |
| ParentChildChunks.RangesPartitionChildren | klai-knowledge-ingest/knowledge_ingest/chunker.py:404-434 | every child index list is a non-empty run of consecutive numbers; the lists follow each other from 0 to the number of children |
| ParentChildChunks.ChildAndParentAgree | klai-knowledge-ingest/knowledge_ingest/chunker.py:404-434 | a parent lists a child if and only if the child points to that parent |
| ParentChildChunks.ChunkingLosesNothing | klai-knowledge-ingest/knowledge_ingest/chunker.py:393-436 | without overlap parents and children each hold all non-whitespace characters of the sections, in order |
| ParentChildChunks.ChildrenBySection | klai-knowledge-ingest/knowledge_ingest/chunker.py:399-434 | the children come section by section: each stretch stands under the path of its section, is cut to size, holds no blank piece, and without overlap reads that section |
| ParentChildChunks.ChildrenRead | klai-knowledge-ingest/knowledge_ingest/chunker.py:420-433 | a child of trimmed sections reads its headings, a blank line and its own trimmed text |
| ParentChildChunks.OnlyChildrenKeepParagraphs | klai-knowledge-ingest/knowledge_ingest/chunker.py:402-419 | parents are cut without, children with regard to whole paragraphs |
| ParentChildChunks.LengthIsExact | klai-knowledge-ingest/knowledge_ingest/chunker.py:395-434 | a chunk starts at the number of characters in the pieces in front of it |
| Documents.ChunkDocument | klai-knowledge-ingest/knowledge_ingest/chunker.py:374-436 | the whole function behind the front matter: merged groups of the kept sections, and the two lists cut from them |
| Documents.DocumentReachesChildren | klai-knowledge-ingest/knowledge_ingest/chunker.py:359-436 | from a document to its children: without overlap the children hold all non-whitespace characters of the kept sections, every body once and in order behind at most its own title; the kept sections hold those between the heading lines when no section is mostly links |
| CheapLayer.AliasNames | klai-knowledge-ingest/knowledge_ingest/cheap_layer.py:55-60 | the loop collects the names group by group, in order |
| CheapLayer.AliasNamesAre | klai-knowledge-ingest/knowledge_ingest/cheap_layer.py:55-60 | a name is added if and only if the text does not mention it but mentions another name of its group |
| CheapLayer.NamesAreAppended | klai-knowledge-ingest/knowledge_ingest/cheap_layer.py:55-60 | each group with a mentioned name adds its new, unmentioned names behind those there are, in its own order |
| CheapLayer.AliasLineIsClean | klai-knowledge-ingest/knowledge_ingest/cheap_layer.py:55-60 | clean terms make a one-line, right-trimmed alias line |
| CheapLayer.AliasLineReads | klai-knowledge-ingest/knowledge_ingest/cheap_layer.py:55-60 | the alias line is its label and the names in order with bars between them, empty without names |
| CheapLayer.AnchorLineReads | klai-knowledge-ingest/knowledge_ingest/cheap_layer.py:63-65 | the anchor line is its label and the link texts in order, each with its whitespace collapsed |
| CheapLayer.LegacyLineGoes | klai-knowledge-ingest/knowledge_ingest/cheap_layer.py:78-91 | an old labelled line in the embedded text alone is stripped unless the chunk itself ends with it |
| CheapLayer.AnchorLineIsOneLine | klai-knowledge-ingest/knowledge_ingest/cheap_layer.py:63-65 | an anchor line never contains a line break |
| CheapLayer.StripUndoesAppend | klai-knowledge-ingest/knowledge_ingest/cheap_layer.py:68-91 | stripping undoes appending if and only if the alias line is one right-trimmed line, the prefix has no leading whitespace, and the text does not end with the anchor line |
| CheapLayer.PatchingIsHistoryIndependent | klai-knowledge-ingest/knowledge_ingest/cheap_layer.py:94-125 | after any sequence of patches exactly the lines of the last settings show, the alias line in both fields and the anchor line behind it |
| RenovateRevert.RenovateBumps | scripts/renovate-revert-after-rollback.py:113-126 | one bump per repository, in the order of first change, oldest old and newest new tag, its distinct line pairs newest first |
| RenovateRevert.TagsAreExact | scripts/renovate-revert-after-rollback.py:113-126 | the tags of a bump come from the first and the last change of its repository |
| RenovateRevert.FirstsAreExact | scripts/renovate-revert-after-rollback.py:113-126 | the bumps come in the order of the first changes of their repositories, one for each |
| RenovateRevert.StepsAreExact | scripts/renovate-revert-after-rollback.py:113-126 | the steps of a repository are the old and new lines of exactly its changes, in order |
| RenovateRevert.RevertLines | scripts/renovate-revert-after-rollback.py:288-290 | every line is taken through all pairs of all bumps, in order |
| RenovateRevert.UndoReachesStart | scripts/renovate-revert-after-rollback.py:119-125 | undoing the recorded pairs of traceable steps takes any line that was written back to a starting line |
| RenovateRevert.UndoOverAnyWalk | scripts/renovate-revert-after-rollback.py:119-125 | for every walk of one line, with repeats and cycles, the recorded pairs newest first lead from its end to its start |
| RenovateRevert.RepositoriesDoNotInterfere | scripts/renovate-revert-after-rollback.py:286-290 | the whole revert acts on a line as the bump of its own repository does |
| RenovateRevert.DueBumps | scripts/renovate-revert-after-rollback.py:251-276 | the two selections leave exactly the bumps with a version that main still runs and no open pull request covers |
| RenovateRevert.DueAreBumps | scripts/renovate-revert-after-rollback.py:251-276 | what is left still holds each repository once, with all its recorded pairs |
| RenovateRevert.DroppedLineStays | scripts/renovate-revert-after-rollback.py:251-290 | a line of a repository whose bumps are all dropped stays as it is |
| RenovateRevert.RevertRestoresLine | scripts/renovate-revert-after-rollback.py:286-290 | end to end, for any selection of bumps: the file holds the line of the start of the range when every recorded step of its repository leads back to it, however many lines took the same steps |
| RenovateRevert.TellingApartIsExact | scripts/renovate-revert-after-rollback.py:119-125 | several lines of one repository: every interleaving of their walks restores each of them if and only if lines that ever read alike started alike |
| RenovateRevert.RevertRestoresRepository | scripts/renovate-revert-after-rollback.py:286-290 | end to end for a repository whose lines can be told apart, for any selection of bumps with its own in it: every line of it comes out as it was at the start of the range |
| RenovateRevert.MergedLinesAreAmbiguous | scripts/renovate-revert-after-rollback.py:286-290 | two lines bumped to the same text both go back to the later one |
| RenovateRevert.FollowedLineIsLost | scripts/renovate-revert-after-rollback.py:286-290 | two lines that are never equal, one following the other, are not restored either |
| BackfillTasks.CountClusterSiblings | klai-knowledge-ingest/knowledge_ingest/backfill_tasks.py:70-106 | the count is the size of the set of other rows with a near, non-zero hash |
| BackfillTasks.KnowledgeBase.EnsureSimhashes | klai-knowledge-ingest/knowledge_ingest/backfill_tasks.py:114-150 | exactly the given rows without a hash get one, and never a zero |
| BackfillTasks.KnowledgeBase.Backfill | klai-knowledge-ingest/knowledge_ingest/backfill_tasks.py:153-267 | the new pages, the number of rows seen and the number newly purged; rows without a content hash are not seen |
| BackfillTasks.KnowledgeBase.Recover | klai-knowledge-ingest/knowledge_ingest/backfill_tasks.py:270-359 | the new pages, the number of purged rows seen and the number restored |
| BackfillTasks.NoPingPong | klai-knowledge-ingest/knowledge_ingest/backfill_tasks.py:202-341 | over every interleaving of the two tasks a page changes purge state at most once, and then to the side its cluster size says |
| BackfillTasks.BackfillIsIdempotent | klai-knowledge-ingest/knowledge_ingest/backfill_tasks.py:202-243 | a second backfill in a row changes nothing |
| BackfillTasks.FlipNeedsCluster | klai-knowledge-ingest/knowledge_ingest/backfill_tasks.py:202-341 | a page is purged only with a cluster at or above the minimum, and restored only below it |
| BackfillTasks.TaskIsExact | klai-knowledge-ingest/knowledge_ingest/backfill_tasks.py:202-341 | what one task does to each page: backfill purges exactly the live pages for which there are enough other live pages with a usable fingerprint within the distance, recover clears exactly the purged ones without enough of any kind; nothing else changes but missing fingerprints that are stored |

## Left out

- RenovateRevert.RevertRestoresLine: takes the repository a compose line names as a given function of the line, not as the reference pattern.
- RenovateRevert.RenovateBumps: starts from the changes of the Renovate commits; reading git and picking out those commits are not modelled.
- AnalysisWindows.AnalyzeSpans: compares with one analysis of the whole text as a multiset only; the windows give the spans in another order, and selection does not depend on the order.
- Chunker.SplitBySize: for texts longer than the size requires an overlap of at most half the size (below the size under 5). Beyond it some text makes the original loop run for ever, see `OverlapBoundIsExact`.
- ParentChildChunks.ChunkWithParents: requires the same of both sizes, also when every section happens to fit.
- MistralPool.LeakIsExact: from the condition to a leak it takes the accounts in play to have different fingerprints; the other way, `LeakIsExposed`, takes nothing.
- StreamRestore.StreamIsExact: is exact for bracket-free values; for values with brackets `StreamRefinesRestore` has a sufficient condition and `UnsettledValueBreaks` a necessary one, and `OwnValuesNeverBreak` shows that they differ.
- RenovateRevert.DueBumps: whether an open pull request covers a bump is a given function; the early end when the branch already has a pull request is not modelled.
- Documents.ChunkDocument: starts behind the front matter.
- Placeholders.RestoreIsReplace: digits are ASCII digits; the original pattern also matches other decimal digits, which masking never writes.
- Headings.SplitByHeadings: the matches of the heading and fence patterns and the link density are inputs; the regular expressions themselves are not modelled.
- MistralPool.KlaiMistralPoolHook.FilterDeployments: reads the clock once per call; healthy deployments are records, not dictionaries of any shape.
- ToolBlocks.ReconcileToolBlock: an id is a string or missing; ids of other types are not modelled.
- ContextAssembly.Assemble: content is a string or missing; lists of content parts, messages that are not dictionaries, and the choice of the model profile are not modelled.
- Meta data of the context assembly, reason codes, log lines, telemetry counters and the survived and leaked placeholder counts.
- The analyzer, the token counter, the language identifier, the evidence gate, the detection of explicit language requests, fingerprints, SimHash and Hamming distance, term mentions and the status file appear as inputs; HTTP, databases, Redis, Qdrant, git and LiteLLM wiring do not appear.
- Spans returned by the analyzer are taken to lie inside the text they were found in.
- The single-level `chunk_markdown`, front matter, product rules and fingerprints of the cheap layer, version exclusions and pull requests of the revert script, and the per-organisation entity policy: they would only add simple members.
