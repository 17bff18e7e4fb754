# QueryMind: a verified model

QueryMind turns a business question into SQL and streams the progress of that work to a browser. This project models
its deterministic algorithms and its protocols in Dafny and proves what they promise, for all inputs, all runs and all
interleavings. `dafny verify dfyconfig.toml` checks everything.

## What is modelled

- **Join paths** (`RelationshipGraph`, `Walks`, `JoinPaths`, `JoinTree`, `Linker`). The breadth-first search over the
  table graph finds the shortlex-least walk: fewest hops, ties broken by declaration order. Prefixes of least walks are
  least and least walks are unique, so the union of the paths from one anchor is a tree.
- **Refresh tokens** (`TokenStore`, `TokenProtocol`, `TokenReuse`, `TokenAudit`). The repository and service as classes;
  the server as a protocol whose steps are single transactions.
- **The browser tab** (`ClientSession`, `ClientSafety`, `ClientRetries`, `ClientStore`, `ClientProgress`). Single-flight
  refresh, login, logout, restore and reload, composed with that server, with responses lost at any moment.
- **Event-stream framing and CSV** (`Sse`, `Csv`), each with its inverse.
- **Prompt budget, validation, cache** (`PromptSections`, `Budget`, `BudgetFit`, `BudgetText`, `PromptValidator`,
  `PromptCompiler`).
- **The pipeline and the client's reconstruction of it** (`Pipeline`, `PipelineRun`, `PipelineFlow`, `Timeline`,
  `LiveTimeline`). Stages are functions that return or raise; the event trace is a function of the outcome alone.
- **Selection and dates** (`Vocabulary`, `Calendar`, `TimeWindows`, `WindowMeaning`, `Candidates`, `Retrieval`), on one
  stable sort (`StableSort`) and one notion of picking elements in order (`Selections`).

Searches, loops and objects that the source updates in place are methods and classes proved against specification
functions; what is then promised about those functions is stated as lemmas.

## Where the code does not do what its documentation says

The code is modelled as it is; each point has a lemma.

- Rotation "can never be used again" (`auth/service.py:179-182`): two refreshes of one token can both succeed if each
  validates before the other revokes (`ConcurrentRefreshesCanBothSucceed`). `RevokedTokenReusableIff` is exact: after a
  revocation the token can still be refreshed by those calls that had passed validation and not failed, by no other.
- Trimming "to fit `max_tokens`" (`budget.py:64`): the truncation marker can push the prompt over budget although the
  required sections fit (`BudgetCanBeExceeded`). `EnforcedFitsIff` gives the size of the result exactly, by a recursion
  over the trim order, and a check on the first section that has to be cut: room for the marker there is enough, and
  is needed too when that section is the last. `EnforcedBound` bounds the rest.
- A concept "at its earliest match" (`entities.py:123-124`): the longest phrase is looked for first, so an earlier
  mention by a shorter phrase is passed over (`ReportCanMissTheFirstMention`). `EarliestMatchIff` tells from the text
  when the promise is kept, for a concept whose words no other concept competes for, and `PlacedFirstIff` from any
  report: only another phrase of the concept, no longer than the reported one, can have been mentioned before it.
- The streamed `repair_performed` (`streamingDerivation.ts:37`) is wrong exactly when a repair came back without
  success, and on a raising run `repair_attempted` exactly when repair itself raised (`DerivedRepairFlags`,
  `FailedRunRepairFlags`).
- "This week" raises for the last five days of year 9999, whose Sunday is not a date; `DefinedIff` lists, for every
  period, exactly the dates that get no window.
- A CSV reader that lets a line break end the last record loses a last row made of one empty value and nothing else
  (`LenientRoundTrip`).

## Model

| member | source | states |
|---|---|---|
| RelationshipGraph.BuildGraph | src/querymind/metadata/relationships.py:53-81 | the edges of each table are, in order, one for each relationship declared on it, equal to it in all five fields; a missing table has none |
| RelationshipGraph.OutgoingIsDeclared | src/querymind/metadata/relationships.py:30-37 | an edge carries its relationship over field by field, in declaration order |
| JoinPaths.ReachableIffDeclared | src/querymind/metadata/relationships.py:40-50 | one table can be reached from another exactly when declared relationships lead there |
| JoinPaths.DiscoveryIsLeast | src/querymind/schema_linker/relationships.py:57-64 | the edge by which the search first meets a table completes the least of all walks to it |
| JoinPaths.FindPath | src/querymind/schema_linker/relationships.py:43-65 | terminates on every graph; returns a chain of declared edges no other chain is shorter than, and nothing exactly when the tables are equal, unknown or not connected |
| JoinPaths.ExpandTable | src/querymind/schema_linker/relationships.py:58-64 | examining one dequeued table either returns the shortest path to the target or keeps the search frontier sound |
| Walks.LeastExists | src/querymind/schema_linker/relationships.py:43-49 | a table that can be reached has a least walk |
| Walks.LeastPrefix | src/querymind/schema_linker/relationships.py:55-64 | every prefix of a least walk is the least walk to where it ends |
| JoinTree.FindPathsFrom | src/querymind/schema_linker/relationships.py:67-89 | the edges returned are the union of the shortest paths, deduplicated by key, in discovery order |
| JoinTree.PathUnionIsShortestPathTree | src/querymind/schema_linker/relationships.py:67-89 | that union is an out-tree rooted at the anchor with one edge fewer than tables, holds every requested reachable table, and holds no edge that is not on a requested path |
| JoinTree.PathUnionIsInOrder | src/querymind/schema_linker/relationships.py:77-89 | edges are listed in the order in which the requested tables call for them |
| JoinTree.OutTreeCount | src/querymind/schema_linker/relationships.py:70-78 | an out-tree has one edge fewer than the tables it touches |
| Linker.CollectInvolved | src/querymind/schema_linker/linker.py:63-109 | the involved tables are those of the query's resolved concepts, field by field and in order, and the ambiguities are counted |
| Linker.Link | src/querymind/schema_linker/linker.py:51-123 | an empty registry is refused; otherwise every involved table that declared relationships lead to from the first is connected to it by a tree of declared relationships, listed in the order the tables are mentioned |
| Linker.InvolvesConcepts | src/querymind/schema_linker/linker.py:63-109 | what is gathered, told from the query's six fields |
| Linker.JoiningEdgesJoin | src/querymind/schema_linker/linker.py:137-146 | every edge is a declared relationship on the shortest path to an involved table |
| Linker.DeclaredIsReachable | src/querymind/metadata/relationships.py:40-50 | a relationship declared from one table to another makes the second reachable from the first |
| Linker.InvolvedTablesAreConnected | src/querymind/schema_linker/linker.py:137-146 | the same, about the paths from the first distinct involved table to the others |
| TokenStore.AuthenticationRepository.StoreRefreshToken | src/querymind/auth/repository.py:66-74 | inserts one unrevoked row, or changes nothing when the identifier exists |
| TokenStore.AuthenticationRepository.RevokeRefreshToken | src/querymind/auth/repository.py:81-89 | sets `revoked` on that row only; a no-op for an unknown token |
| TokenStore.AuthenticationService.CreateTokenPair | src/querymind/auth/service.py:130-150 | raises the user's count of unrevoked tokens by one |
| TokenStore.AuthenticationService.ValidateRefreshToken | src/querymind/auth/service.py:152-176 | passes exactly for a decodable, issued, unrevoked, unexpired token, and which error otherwise |
| TokenStore.AuthenticationService.RefreshTokens | src/querymind/auth/service.py:178-188 | succeeds exactly for a usable token of an active user; the presented token is spent, one new token replaces it |
| TokenStore.AuthenticationService.Logout | src/querymind/auth/service.py:190-197 | revokes a usable token and lowers the user's count of unrevoked tokens by one |
| TokenStore.RotationConserves | src/querymind/auth/service.py:187-188 | rotation keeps the user's count of unrevoked tokens and every other user's tokens |
| TokenStore.RevocationLowersByOne | src/querymind/auth/repository.py:81-89 | revocation removes exactly one unrevoked token and touches no other user |
| TokenStore.IssueRaisesByOne | src/querymind/auth/repository.py:66-74 | issuing adds exactly one unrevoked token and touches no other user |
| TokenProtocol.InvRun | src/querymind/auth/service.py:130-197 | over every interleaving of transactions: validations precede revocations of the same token, only calls revoke, no token is issued twice, and one clock tick passes per transaction |
| TokenProtocol.RevocationIsForever | src/querymind/auth/repository.py:81-89 | along every schedule no row is lost, changes owner, or is un-revoked |
| TokenProtocol.SuccessfulRefreshesOverlap | src/querymind/auth/service.py:178-188 | two successful refreshes of one token each validated it before the other revoked it |
| TokenProtocol.SpentTokenStaysSpent | src/querymind/auth/service.py:178-197 | a call begun after a refresh or logout of the token ended can neither refresh nor log out with it |
| TokenProtocol.ValidationPassesIff | src/querymind/auth/service.py:169-176 | validation passes if and only if the token was issued, is in date, and no call has revoked it so far |
| TokenReuse.RevokedTokenReusableIff | src/querymind/auth/service.py:178-188 | once a token is revoked, a call can still refresh it in some continuation if and only if it had passed validation and has not failed |
| TokenReuse.ConcurrentRefreshesCanBothSucceed | src/querymind/auth/service.py:178-188 | a schedule in which one token is refreshed twice, leaving two live tokens |
| TokenReuse.FinishLogout | src/querymind/auth/service.py:190-197 | a logout that found its token usable can go on to revoke it, and only it |
| TokenAudit.SuccessfulRefreshTookFiveSteps | src/querymind/auth/service.py:178-188 | under every interleaving a refresh succeeds only by begin, validation, active-user check, revocation and issue, in that order; the new token has the old one's owner |
| TokenAudit.InactiveUserGetsNothing | src/querymind/auth/service.py:184-186 | a call whose user is found inactive fails with that error, revokes nothing and is issued nothing |
| TokenAudit.HistoryRun | src/querymind/auth/service.py:130-197 | every call's times are the positions of its own transactions; a pair issued was stored by its call for the right user |
| TokenAudit.ValidationVerdict | src/querymind/auth/service.py:163-176 | which error a failed validation gives, guard by guard |
| TokenAudit.StoreVerdict | src/querymind/auth/repository.py:66-74 | a repeated identifier is refused; otherwise exactly one unrevoked row is added |
| ClientSession.AuthStore.SetTokens | frontend/src/store/authStore.ts:49-50 | stores both tokens and nothing else |
| ClientSession.AuthStore.Clear | frontend/src/store/authStore.ts:52-53 | leaves no token and no user |
| ClientSafety.InvRun | frontend/src/services/api.ts:50-104 | over every interleaving of client and server: the stored token has only been presented by refreshes still awaited, tokens on their way are new to the client, and the shared promise names the one open refresh |
| ClientSafety.RefreshIsSingleFlight | frontend/src/services/api.ts:50-71 | no two refreshes started by requests are in flight together |
| ClientSafety.EachRequestIsSentAtMostTwice | frontend/src/services/api.ts:97-104 | a request sends its own call at most twice |
| ClientRetries.SentAgainIffGranted | frontend/src/services/api.ts:97-104 | over every run a request is sent a second time if and only if the refresh it waited for brought a pair the server issued for a refresh; otherwise it ends failed after one send |
| ClientRetries.GrantedRequestCanSucceed | frontend/src/services/api.ts:97-104 | from every reachable state a waiting request whose refresh is granted can still succeed |
| ClientStore.AnswersDecideRequests | frontend/src/services/api.ts:97-104 | the first 401 on a call worth retrying waits for the refresh in progress, or starts one; any other answer ends the request |
| ClientStore.AnswersReachTheStore | frontend/src/store/authStore.ts:49-101 | what every action does to status, tokens and user: a granted pair is stored whole, a refused or lost exchange signs out |
| ClientStore.CallsPresentTheStoredToken | frontend/src/store/authStore.ts:55-101 | calls present the token held at that moment, and only login, logout, restore and a 401 make any |
| ClientStore.TokensStayPaired | frontend/src/store/authStore.ts:49-50 | over every run the access token held came with the refresh token held |
| ClientProgress.LoginCanSucceed | frontend/src/store/authStore.ts:55-72 | from every reachable state some continuation ends authenticated with a live token of the user |
| ClientProgress.LogoutCanRevoke | frontend/src/store/authStore.ts:74-84 | from every reachable state logging out signs out at once and can have the token revoked |
| ClientProgress.NoTaskIsStuck | frontend/src/services/api.ts:50-104 | in every reachable state a task that has not ended, or one it waits for, has an action that moves it on |
| ClientSafety.StoredTokenIsLive | frontend/src/store/authStore.ts:49-101 | with no refresh in flight the stored refresh token was issued, is not revoked and was never presented, under every order of login, logout, restore, reload, 401s and lost responses |
| Sse.StreamQuery | frontend/src/services/streaming.ts:83-97 | the frames parsed and the leftover buffer are those of splitting the whole stream once |
| Sse.ReadingIsSplittingOnce | frontend/src/services/streaming.ts:87-92 | splitting the buffer after every chunk cuts off exactly the frames of splitting the whole stream once, inside a blank line too |
| Sse.SplitAppend | frontend/src/services/streaming.ts:90-92 | text that arrives later only touches the last piece |
| Sse.SplitJoins | frontend/src/services/streaming.ts:91-92 | joined by blank lines the pieces are the text |
| Sse.LinesJoin | frontend/src/services/streaming.ts:49-51 | joined by newlines the lines are the frame, and none contains one |
| Sse.FirstDataIs | frontend/src/services/streaming.ts:49-53 | the payload is that of the first data line; a frame without one has none |
| Sse.ChunkingIsIrrelevant | frontend/src/services/streaming.ts:87-97 | every two ways of cutting one stream give the same frames and leftover |
| Sse.RecoveredIffClean | frontend/src/services/streaming.ts:91-92 | however the stream is cut, blank-line-terminated frames come back in order with nothing left over if and only if none contains or ends in a newline that forms a blank line |
| Sse.FrameIsCleanAndParses | src/querymind/streaming/sse.py:39-50 | a frame the server writes is clean and the client parses exactly its JSON text |
| Sse.StreamDeliversEveryEvent | frontend/src/services/streaming.ts:49-97 | however the server's stream is cut, exactly the events sent are delivered, in order |
| Csv.CellRoundTrip | frontend/src/utils/csv.ts:3-8 | a cell reads back to its value through quotes, commas, newlines and lone carriage returns |
| Csv.CellsAreQuotedWhenNeeded | frontend/src/utils/csv.ts:3-8 | a cell without quote, comma and newline is written as it is, any other between quotes |
| Csv.TableRoundTrip | frontend/src/utils/csv.ts:13-19 | an RFC 4180 (section 2) reader gives the table back if and only if no record is empty |
| Csv.LenientRoundTrip | frontend/src/utils/csv.ts:13-19 | with an optional final line break it does so unless the last row is one empty value |
| PromptSections.EstimateIsCeiling | src/querymind/prompt_compiler/budget.py:36-40 | the estimate is the least number of four-character tokens covering the text |
| PromptSections.SpacesAre | src/querymind/prompt_compiler/budget.py:120-121 | the characters that stripping removes |
| PromptSections.BlankIsStrippedAway | src/querymind/prompt_compiler/validator.py:150-152 | a section is blank exactly when stripping leaves nothing of it |
| Budget.Enforce | src/querymind/prompt_compiler/budget.py:63-90 | the loop computes the specified trimming |
| Budget.TrimOrderFacts | src/querymind/prompt_compiler/budget.py:77-80 | the trim order is exactly the non-required sections by priority, ties in their original order |
| Budget.TouchesPrefixOfTrimOrder | src/querymind/prompt_compiler/budget.py:63-90 | identity within budget; order, names and required sections kept; only a prefix of the trim order is touched, left unfinished only once the tracked total fits |
| Budget.TouchedIsShrunk | src/querymind/prompt_compiler/budget.py:82-88 | each touched section is shortened or dropped for the positive excess tracked before it |
| BudgetText.TouchedText | src/querymind/prompt_compiler/budget.py:93-126 | each touched section is emptied, or its text is cut at four characters a token to keep, right-stripped and followed by the marker, for the excess tracked before it |
| BudgetText.EnforcedIsHonest | src/querymind/prompt_compiler/budget.py:93-126 | sections whose count is the estimate of their text are so after trimming |
| BudgetText.ShortenedCountsCuts | src/querymind/prompt_compiler/budget.py:82-88 | the count in the bound is of the touched sections that are cut |
| BudgetText.EnforcedTextBound | src/querymind/prompt_compiler/budget.py:63-126 | the text of the result is at most four characters for each token of the bound |
| Budget.EnforcedBound | src/querymind/prompt_compiler/budget.py:63-126 | the real total is at most max(required, budget + 9) + 8 per shortened section, and within budget when sections were only dropped and the required ones fit |
| Budget.ShorteningMeetsTargetIff | src/querymind/prompt_compiler/budget.py:118-126 | a cut reaches its target if and only if what is kept leaves room for the marker |
| BudgetFit.EnforcedFitsIff | src/querymind/prompt_compiler/budget.py:63-126 | the exact size of the trimmed prompt; it fits when the first section cut leaves room for the marker, and only then if no section follows that one in trim order |
| BudgetFit.RealTotalIsOverrun | src/querymind/prompt_compiler/budget.py:82-126 | what the loop leaves over budget follows from token counts and the overshoot of each cut, growth the manager does not notice included |
| Budget.BudgetCanBeExceeded | src/querymind/prompt_compiler/budget.py:63-90 | sections whose required part fits but whose trimmed total is nine tokens over budget |
| PromptValidator.Validate | src/querymind/prompt_compiler/validator.py:74-164 | exactly the issues the prompt has, each with what it names; none if and only if some content, all required sections present and non-blank, no repeated example, within budget |
| PromptValidator.CheckNoDuplicateExamples | src/querymind/prompt_compiler/validator.py:115-135 | exactly the repeated example identifiers are reported |
| PromptCompiler.Compiler.Compile | src/querymind/prompt_compiler/compiler.py:86-161 | a hit returns the stored prompt; a miss compiles and stores only a valid prompt |
| PromptCompiler.FreshContents | src/querymind/prompt_compiler/compiler.py:96-186 | a fresh compile, cacheable or not, is what the builders gave, trimmed only when over budget and to an exact size, with statistics that count what it holds |
| PromptCompiler.MissIsFresh | src/querymind/prompt_compiler/compiler.py:96-161 | a call whose key is not stored is answered by a fresh compile, stored if and only if it is valid |
| PromptCompiler.AnswersEqualFresh | src/querymind/prompt_compiler/compiler.py:96-161 | after any sequence of calls an answer equals a fresh compile except for latency, even for bundles that differ only in statistics |
| PromptCompiler.StoredPromptsAreValid | src/querymind/prompt_compiler/cache.py:1-8 | every stored prompt is within budget, has its required sections filled in and repeats no example |
| PromptCompiler.StoredForGood | src/querymind/prompt_compiler/cache.py:57-67 | a stored entry is never replaced |
| PipelineRun.Run | src/querymind/orchestrator/pipeline.py:156-265 | the result is the same with and without a publisher, which hears exactly the trace of that result |
| PipelineRun.GenerateAndValidate | src/querymind/orchestrator/pipeline.py:315-444 | the shared stages publish one start/complete pair per timing, or the failing stage |
| PipelineRun.StagesRunInOrder | src/querymind/orchestrator/pipeline.py:332-425 | stages attempted are a prefix of the fixed order, the whole of it on success |
| PipelineRun.RepairIffInvalid | src/querymind/orchestrator/pipeline.py:401-415 | repair runs if and only if validation found the SQL invalid |
| PipelineRun.TraceHasOneTerminalEvent | src/querymind/orchestrator/pipeline.py:168-265 | a trace starts with the start event and has exactly one terminal event, its last, of the kind the outcome calls for |
| PipelineRun.ExecutedSqlIsTheFinalSql | src/querymind/orchestrator/pipeline.py:399-425 | what is executed and answered for is the SQL last validated, the repaired one when repair ran |
| PipelineFlow.ResponseFlows | src/querymind/orchestrator/pipeline.py:156-425 | each stage is given what the stages before it gave, the bundle going to compilation and to repair; answer, error, status and timings are those of the calls |
| PipelineFlow.FailureFlows | src/querymind/orchestrator/pipeline.py:156-444 | a raising run names the stage whose call on those inputs raised, with its error and duration, and carries what had been computed |
| Timeline.DerivedTimingsAgree | frontend/src/utils/streamingDerivation.ts:25-28 | the client's stage timings equal the server's, on raising runs too |
| Timeline.DerivedRepairFlags | frontend/src/utils/streamingDerivation.ts:31-38 | `repair_attempted` agrees; `repair_performed` agrees if and only if repair was not attempted or succeeded |
| Timeline.FailedRunRepairFlags | frontend/src/utils/streamingDerivation.ts:31-38 | on raising runs `repair_attempted` agrees if and only if the failing stage is not repair, and when `repair_performed` agrees |
| Timeline.ClientResponseAgrees | frontend/src/utils/streamingDerivation.ts:41-75 | the response rebuilt from the trace agrees with what the run returned or raised |
| Timeline.RowsAgree | frontend/src/utils/pipelineTimeline.ts:24-67 | at the end of a run that does not raise the live timeline equals the one from the server's timings |
| Timeline.RowsAgreeUpToFailure | frontend/src/utils/pipelineTimeline.ts:24-57 | on a raising run it differs only in showing the failing stage as failed |
| LiveTimeline.LiveRow | frontend/src/utils/pipelineTimeline.ts:24-57 | after every part of a run's events a row shows its stage completed with its time, running, or pending |
| LiveTimeline.NothingYet | frontend/src/utils/pipelineTimeline.ts:50-56 | before the first event every row is pending |
| LiveTimeline.FailedRow | frontend/src/utils/pipelineTimeline.ts:35-37 | once the failing stage is reported its row shows the failure and its time |
| LiveTimeline.RowFromTimingsIs | frontend/src/utils/pipelineTimeline.ts:59-67 | a row drawn from timings shows the first time recorded, or that the stage was skipped |
| LiveTimeline.RowsAreInStageOrder | frontend/src/utils/pipelineTimeline.ts:24-67 | one row for each stage that can run, in the order in which they run |
| LiveTimeline.TraceEventByEvent | src/querymind/orchestrator/pipeline.py:156-444 | the trace of every outcome, event by event |
| Calendar.FromOrdinalInverse | src/querymind/nlu/time.py:111-114 | dates and ordinals, on which date arithmetic rests, are inverse to each other |
| Calendar.EpochOrdinal | src/querymind/nlu/time.py:111-114 | ordinals count from the first of January of year 1 |
| Calendar.EpochWeekday | src/querymind/nlu/time.py:111-114 | weekdays count from Monday |
| WindowMeaning.MonthLengths | src/querymind/nlu/time.py:117-120 | the lengths of the months, February taking what the year leaves it |
| WindowMeaning.KnownLeapYears | src/querymind/nlu/time.py:117-120 | 1900 and 2023 have no leap day, 2000 and 2024 have one |
| TimeWindows.CurrentWindowContainsToday | src/querymind/nlu/time.py:189-217 | each current window contains the reference date |
| WindowMeaning.WindowMeansItsPeriod | src/querymind/nlu/time.py:189-217 | a window holds exactly the dates of the same day, week, month, quarter or year as the reference date, or of the one before |
| WindowMeaning.LastIsThisOfItsDates | src/querymind/nlu/time.py:189-217 | each previous window is the current window of every date in it |
| TimeWindows.PreviousWindowIsAdjacent | src/querymind/nlu/time.py:189-217 | each previous window ends the day before the current one starts, year boundaries and leap years included |
| TimeWindows.WeekIs | src/querymind/nlu/time.py:111-114 | a week is seven days from a Monday and contains its date |
| TimeWindows.QuarterIs | src/querymind/nlu/time.py:123-132 | a quarter is exactly the dates of its three months |
| TimeWindows.QuartersPartitionTheYear | src/querymind/nlu/time.py:123-132 | the four quarters are adjacent, cover the year and overlap nowhere |
| TimeWindows.DefinedIff | src/querymind/nlu/time.py:189-217 | exactly which dates leave a period without a representable window |
| Vocabulary.FindVocabularyMatches | src/querymind/nlu/entities.py:114-142 | phrases claim longest first, equally long ones in declaration order; the report is word-bounded, disjoint, sorted, names each concept once, takes each phrase's first free match, and leaves no match of a longer phrase unblocked |
| Vocabulary.OccursIff | src/querymind/nlu/entities.py:131 | a phrase occurs where the text spells it between two word boundaries |
| Vocabulary.OverlapIsSharing | src/querymind/nlu/entities.py:133-134 | two spans overlap exactly when they share a character |
| Vocabulary.ReportedSpansAreOrdered | src/querymind/nlu/entities.py:133-142 | reported spans follow one another in the text without overlap, under distinct names |
| Vocabulary.MatchOrInsideMatch | src/querymind/nlu/entities.py:131 | the scan meets every occurrence of a phrase, or an earlier one that it starts inside of |
| Vocabulary.ReportIsMaximal | src/querymind/nlu/entities.py:128-138 | every occurrence of an unreported concept's phrase overlaps a reported phrase at least as long; for a phrase that can overlap itself across a word boundary, an earlier overlapping occurrence may do so instead |
| Vocabulary.PlacedFirstIff | src/querymind/nlu/entities.py:117-138 | a concept is reported at its earliest unclaimed mention if and only if no other phrase of it, no longer than the reported one, has such a mention before |
| Vocabulary.OnlyPhraseIsPlacedFirst | src/querymind/nlu/entities.py:117-138 | a concept of which the text contains one phrase only is reported at that phrase's first unclaimed mention |
| Vocabulary.EarliestMatchIff | src/querymind/nlu/entities.py:117-138 | with no other concept competing for its words, a concept that is mentioned is reported at the first match of a longest phrase present, which is its earliest match if and only if no other phrase of it matches before |
| Vocabulary.ReportCanMissTheFirstMention | src/querymind/nlu/entities.py:117-125 | a text in which every report places a concept after its first mention |
| Candidates.ScoreInBand | src/querymind/schema_linker/scorer.py:29-62 | each tier's score stays in its documented band, rounding included |
| Candidates.ScoreIsNearest | src/querymind/schema_linker/scorer.py:44-62 | the fixed scores, and for the approximate tiers the ten-thousandth nearest to the linear map of the similarity |
| Candidates.ScoreGrowsWithSimilarity | src/querymind/schema_linker/scorer.py:54-62 | within a tier a more similar match never scores lower |
| Candidates.RankedIsOrdered | src/querymind/schema_linker/candidates.py:110-122 | descending confidence, the better tier first among equals, scan order among those; ranks count from one |
| Candidates.RefusalsAreExplained | src/querymind/schema_linker/ambiguity.py:50-80 | which of the three refusals is given, about which candidates |
| Candidates.TiersNeverCross | src/querymind/schema_linker/scorer.py:16-27 | a better tier always scores strictly higher |
| Candidates.DecisionIffWinner | src/querymind/schema_linker/ambiguity.py:42-82 | a concept resolves if and only if one candidate has 0.60 and beats every other by 0.10, and that candidate is taken |
| Candidates.ScanOrderIsIrrelevant | src/querymind/schema_linker/candidates.py:113-122 | verdict and winner do not depend on the schema scan order |
| Candidates.WhoCannotWin | src/querymind/schema_linker/ambiguity.py:42-48 | a partial match never wins, and an exact one never against another exact or a business-dictionary match |
| Retrieval.ScoreExample | src/querymind/retrieval/scorer.py:34-99 | with the default weights the cap never binds: the score is the weighted sum |
| Retrieval.WeightsFollowImportance | src/querymind/retrieval/scorer.py:30-43 | the documented order of importance, with its proportions |
| Retrieval.IdLessIff | src/querymind/retrieval/ranker.py:30 | identifiers are ordered by code point |
| Retrieval.AverageIsMean | src/querymind/retrieval/statistics.py:24-30 | the average score is the mean |
| Retrieval.RankTakesTheBest | src/querymind/retrieval/ranker.py:21-31 | the k least pairs under descending score and ascending identifier, in order |
| Retrieval.RankIgnoresInputOrder | src/querymind/retrieval/ranker.py:30-31 | the result is the same for every permutation of the input |
| Retrieval.SmallerKIsPrefix | src/querymind/retrieval/ranker.py:31 | the result for k is a prefix of the result for any larger k |
| Retrieval.OnlyPositiveKIsRanked | src/querymind/retrieval/ranker.py:28-31 | exactly a non-positive k is refused |
| Retrieval.Collect | src/querymind/retrieval/statistics.py:24-58 | each signal's contribution is its average weighted score, and together they make up the average score |

## Left out

- EnforcedFitsIff: where sections follow the first one cut and it has no room, fitting is decided by the exact recursion over the later sections; no shorter test is given.
- Link: what resolving one concept does is an input; matching and similarity ratios are not part of this model.
- Candidate generation loops and their cache, role checks, API keys, registration: they would only add easy members.
- ScoreExample, DecisionIffWinner: exact numbers; a margin of exactly 0.10 may read as less in floating point.
- Other tabs and other users' clients: their tokens are their own; the model has one tab, and a reload only while no refresh is in flight.
- RefreshTokens: tokens are identified by their `jti`; signing, hashing and decoding are inputs.
- Run: a publisher that raises, response construction that fails inside the try block, wall-clock totals, and the stage name put in front of an error message.
- DerivedTimingsAgree: the client's total latency is the sum of these durations; the server's is wall-clock time and need not equal it.
- ClientResponseAgrees: the execution result nested in a business answer is part of the answer's text here.
- StreamQuery: UTF-8 decoding, JSON parsing, aborts and the WebSocket transport are given functions or left out.
- Compile: section texts come from given builders that do not read retrieval statistics, as the shipped ones do not; the content hash is taken as injective.
- Explicit date ranges and their parsing.
