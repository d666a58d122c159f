# Verification of the Jarela client state machines

The chat client keeps several pieces of state that asynchronous events change in any order: the message
list, the API caches, the table of startup responses, the event iterator of a run, the text that is being
streamed, the tool cards, the artifact folder and the context-tier bar. This project models that logic in
Dafny and proves what it keeps. `dafny verify dfyconfig.toml` checks everything.

Code that updates variables, fields or maps in place is a class or a method here, and each method is proved
equal to a function of its inputs or of the old state. Whole runs are sequences of events over those same
functions, and the theorems speak about every run. Responses, callbacks, timers, server commits and failed
unlinks are events or parameters, so they come in every possible order.

| files | what they model |
|---|---|
| `Messages`, `MessageAccounting`, `MessagePromotions`, `MessageConfluence`, `StableSorting` | `appendUnique`: what one merge does to every row, which bubbles it promotes, and why the order of fetches does not matter |
| `ChatRuns`, `ChatQueues` | the message list under launch, accept, reject, steer, steer failure and refetch; how long a bubble waits and what it shows |
| `Refetch`, `RefetchRaces` | the delta fetch after a run, anchored on the last confirmed row, with several fetches in flight, while the server stores rows and rewrites stored ones |
| `RefetchContents`, `RefetchDrafts` | when the loaded rows also have the contents of the server's rows |
| `ValueCaches`, `CacheProtocol`, `CacheReads`, `CacheMutations` | the value and list caches: reads, patches, invalidations, superseded and failed fetches, what answers a read, and when a mutation is seen |
| `StartupReads`, `StartupRetention` | the bounded table of startup responses, the points that clear it, and what it keeps |
| `RunSubscription`, `RunOutcomes` | the queue, the waiters and the callbacks behind the run's event iterator, and how it ends |
| `StreamSession`, `Steering` | text batched behind animation frames; segments frozen by a steered `done` and rolled back |
| `ToolGroups`, `ToolCards`, `ToolResults`, `ToolReadings`, `ToolChains`, `ToolLabels`, `ToolNames` | tool events folded into cards and into the running-tool label, and what each card shows |
| `ArtifactFiles`, `ArtifactCleanup`, `ArtifactRetention` | the two-phase artifact cleanup: the plan, and the folder afterwards |
| `TierProportions` | normalising and dragging the three-segment context bar |

## Where the code does less than a reader may expect

Each point names the theorem with the exact condition and, where there is one, an input that shows the effect.

- A reply that is still in progress is stored as a row of its own and rewritten in place. A refetch asks for
  what is newer than the last loaded row, so it never brings such a row again. The loaded rows have the
  server's contents if and only if none changed since the answer that last delivered it
  (`StretchIsExactIffUnchanged`; `CurrentIffNotRewritten` in terms of rewrites; and after one refetch,
  `RefetchIsCurrentIffLoadedUnchanged`, the rows up to the anchor decide). A row that was rewritten after it
  was loaded stays stale under every run of anchored refetches (`StaleRowsStayStale`); `DraftIsNeverCompleted`
  is a run: a page ends with a draft, the draft is completed, the refetch brings nothing. A row that was
  finished when it was loaded stays current (`FinishedRowsStayCurrent`), so a caller can check beforehand that
  no loaded row is a draft.
- The two fetch orders converge if and only if the pages agree on the rows they share
  (`OrdersConvergeIffPagesAgree`); the comment at `components/chat/chat-helpers.ts:96` has no condition. Two
  versions of a draft are pages that do not agree.
- A delta fetch reaches the server's last row if and only if at most 50 rows are newer than its anchor, or
  another fetch has brought them (`RefetchCatchesUpIffOnePage`): the route caps the response at one page.
- Without an anchor a fetch brings the latest page. By id, seq and role, the loaded rows stay one stretch of the
  thread if and only if every such page meets what is loaded when it lands (`OneStretchIffPagesMeet`); in a
  fresh thread that is so until more than one page of further rows is stored (`FreshThreadsHaveNoGaps`), and
  `UnanchoredPagesCanLeaveGap` is a run in which it is not.
- After a mutation the client patches a held list and otherwise leaves the agent and task lists alone. Later
  readers see the mutation if and only if the list was held or no fetch was in flight (`MutationIsVisibleIff`);
  in `MutationCanStayHidden` a fetch from before the mutation commits the old list.
- A mutation clears the startup table at the end of its last attempt, and settles after its body is parsed.
  Settlement is a barrier for startup reads if and only if every read begun in between that the table keeps
  has expired (`SettlementIsABarrierIffLingeringExpired`), or, for a clock that may run backwards, if it keeps
  none (`SettlementIsABarrierIffNothingLingers`); `SettlementCanBeOvertaken` is a run in which it is not.
- Rolling back a segment that is not the newest puts its text behind the later segments
  (`RollbackKeepsOrderIff`, `OlderRollbackReorders`). Repeated segment ids would lose text
  (`RollbackKeepsCharactersIffIdUnique`); they do not occur, since every steer arms a new id
  (`components/chat/ChatView.tsx:321-325`) and a `done` disarms it.
- A tool result can go missing. Every absorbed reader call has the visible card of its handoff if and only if
  no call reads a call that reads one itself (`EveryReaderHasCardIffUnchained`), which for calls with key
  arguments can be seen after the first pass (`EveryReaderHasCardIffAimsUnchained`). `ChainLosesResult` is a
  stream whose finished result is not shown at all; in `LostArgumentsHideTheCall` a handed-off reader call
  that lost its arguments reads itself and leaves no card.
- The running-tool label and the cards can drift apart, though the comment at `hooks/useSSE.ts:57-61` says they
  cannot: in their ids (`FoldsAgreeIffOrderly`, `RepeatedCallDrifts`), in their order
  (`FoldsAgreeInOrderIff`), and in the names they show (`NamesAgreeIff`).
- The cleanup report counts a file whose unlink failed (`ReportAddsUpIffOnlyEmptyFilesStuck`).
- The facts percent can be -1 (`OnlyFactsCanBeNegative`, `FactsReachesMinusOne`).

## Model

| member | source | states |
|---|---|---|
| Messages.MergeRows | components/chat/chat-helpers.ts:128-165 | the loop with its index Map and in-place array computes the specification `AppendUnique`: overwrite by id, else confirm the first matching bubble, else append, then one stable sort |
| Messages.FindBubble | components/chat/chat-helpers.ts:146-148 | finds the first unconfirmed user bubble with the content, or reports that there is none |
| StableSorting.SortIsStable | components/chat/chat-helpers.ts:162-163 | the sort is an ordered permutation that keeps the order of equal keys; rows without a seq count as infinite |
| StableSorting.StableOrderIsUnique | components/chat/chat-helpers.ts:118-121 | order and stability leave exactly one result, so any stable sort gives the same list |
| MessageAccounting.MergeAccountsForEveryRow | components/chat/chat-helpers.ts:93-121 | each old row survives, is updated by id, or gives its place to a server row of its role and text; each delivered id occurs once in its last version; the length is exact; ids are distinct and the list is sorted |
| MessageAccounting.MergeIsIdempotent | components/chat/chat-helpers.ts:96-97 | delivering the same batch twice changes nothing |
| MessagePromotions.MergePopsTheQueue | components/chat/chat-helpers.ts:143-155 | for every text, the user bubbles that are pending, sent, steering or uncertain are after a merge those before it, in order, without the first k: one for each delivered user row of the text whose id was not in the list |
| MessagePromotions.BubbleWaitsOnIff | components/chat/chat-helpers.ts:101-105 | a bubble gives its place up if and only if more new rows of its text arrive than bubbles of its text stand before it |
| MessagePromotions.DeliveredRowsKeepTheirFields | components/chat/chat-helpers.ts:133-164 | every delivered row is in the list with the server's fields of its last version, marked confirmed; the list is ascending by seq, with the rows that have none at the end |
| MessageConfluence.MergeAbsorbs | components/chat/chat-helpers.ts:133-160 | a merge acts on the set of confirmed rows and the queue of bubbles as a fold of single-row steps that commute |
| MessageConfluence.ViewDeterminesList | components/chat/chat-helpers.ts:110-121 | confirmed rows as a set and bubbles as a queue determine the sorted list |
| MessageConfluence.OnlyTheSetMatters | components/chat/chat-helpers.ts:96-97 | after rows that agree, only the set of rows that arrived matters, not order or repetition |
| MessageConfluence.BothOrdersConverge | components/chat/chat-helpers.ts:96-97 | merging a then b, b then a, or both at once gives the same list, also with several pending bubbles of equal text |
| MessageConfluence.DeliveriesConverge | components/chat/chat-helpers.ts:96-97 | any two histories of fetches with the same rows, however split, repeated and ordered, leave the same list |
| MessageConfluence.OrdersConvergeIffPagesAgree | components/chat/chat-helpers.ts:96-97 | the orders converge if and only if the pages agree on the rows they share |
| ChatRuns.StepKeeps | components/chat/ChatView.tsx:256-349 | every launch, accept, reject, steer, steer failure and refetch keeps the list invariant and every confirmed row |
| ChatRuns.PromotionsMatch | components/chat/chat-helpers.ts:143-155 | each bubble a batch promotes had the text of the user row that took its place, and no row takes two bubbles |
| ChatRuns.ChatIsSafe | components/chat/ChatView.tsx:256-349 | over every run ids stay distinct, the list stays ordered by seq with the bubbles last, and a confirmed row is never removed or unconfirmed |
| ChatRuns.NoBubbleDisappears | components/chat/chat-helpers.ts:101-105 | a bubble ever shown waits with its text, was withdrawn, or was replaced by a row with its text that stays: exactly one of the three |
| ChatRuns.LateOutcomesMiss | components/chat/ChatView.tsx:297-304 | an outcome that arrives after its bubble was promoted or withdrawn changes nothing, since no row has that id |
| ChatQueues.BubblesQueueUp | components/chat/ChatView.tsx:256-349 | over every run the bubbles of a text are a queue: launches and steers join at the end, withdrawals leave, each new user row of the text takes the one at the front |
| ChatQueues.WaitsIffFewArrived | components/chat/chat-helpers.ts:101-105 | from any moment of any run on, a bubble with p older ones of its text still waits only if at most p new rows of the text have arrived; exactly then, if neither it nor an older one was withdrawn |
| ChatQueues.BubblesShowTheirOutcome | components/chat/ChatView.tsx:269-341 | at every moment of every run a waiting bubble has the text and fields it was launched or steered with, no seq, and the status told last about it: pending, steering, sent or uncertain |
| Refetch.ThreadView.StartRefetch | components/chat/chat-run-utils.ts:25-29 | the anchor is the seq of the last confirmed row; no confirmed row, or a falsy seq, gives none |
| Refetch.ThreadView.LandRefetch | components/chat/chat-run-utils.ts:33-45 | the response is merged into the list as it is by then; the page flag changes only on a full reload; the last assistant row is spoken if speech was pending |
| Refetch.AnchorIsLastSeq | components/chat/chat-run-utils.ts:25-29 | the anchor is n if and only if n is not zero and is the seq of the last row that is none of pending, sent, steering and uncertain |
| Refetch.PageAfterRow | lib/stores/threads.ts:337-351 | the forward fetch returns the oldest rows newer than the anchor, at most one page of 50 of them |
| Refetch.MergeUnites | components/chat/chat-helpers.ts:133-160 | after merging any versions of a slice of the table, the confirmed rows are, by id, seq and role, exactly the old ones and the slice |
| Refetch.SliceKeepsWindowIffItMeets | components/chat/chat-run-utils.ts:15-18 | merging a slice keeps one stretch of the table, by id, seq and role, if and only if the slice meets it; otherwise a hole stays |
| RefetchRaces.AnchorIsWindowEnd | components/chat/chat-run-utils.ts:25-26 | the last confirmed row carries the largest local seq, and that is the anchor |
| RefetchRaces.LocalStepsKeepConfirmed | components/chat/chat-run-utils.ts:20-24 | launches, steers and their outcomes leave the confirmed rows alone |
| RefetchRaces.LandExtends | components/chat/chat-run-utils.ts:30-33 | a response that meets the loaded stretch joins it, even if the list grew meanwhile |
| RefetchRaces.EventKeeps | components/chat/chat-run-utils.ts:22-33 | storing, rewriting in place, asking, answering, local steps and anchored landings keep the confirmed rows, by id, seq and role, one stretch of the table with the same lower end |
| RefetchRaces.RefetchesLeaveNoGaps | components/chat/chat-run-utils.ts:22-33 | once rows are loaded and requests are anchored: over every run, with any rewrites and any number of refetches in flight landing in any order, no id, seq or role is missing |
| RefetchRaces.OneStretchIffPagesMeet | components/chat/chat-run-utils.ts:17-33 | from any thread, also an empty one, and under rewrites: the confirmed rows stay one stretch by id, seq and role after every event if and only if each unanchored page meets what is loaded when it lands |
| RefetchRaces.OnePageOfNewsLeavesNoGaps | app/api/v1/threads/[thread_id]/route.ts:86-93 | while the server stores at most one page of rows beyond a position that the window and all pages in flight touch, no gap appears |
| RefetchRaces.FreshThreadsHaveNoGaps | components/chat/chat-run-utils.ts:17-33 | with nothing loaded or in flight, no order of fetches leaves a gap until more than one page of further rows is stored |
| RefetchRaces.UnanchoredPagesCanLeaveGap | components/chat/chat-run-utils.ts:27-33 | two pages asked for an empty list, one answered early and one after more than a page of further rows: the rows in between are missing |
| RefetchRaces.RefetchCatchesUpIffOnePage | app/api/v1/threads/[thread_id]/route.ts:82-88 | a refetch reaches the server maximum of its answer if and only if at most one page was newer than the anchor, or the rows were there already |
| RefetchContents.EventRecorded | lib/stores/threads.ts:516-550 | every event, rewrites included, keeps each loaded row the version of the answer that last delivered it |
| RefetchContents.CurrentIffUnchanged | components/chat/chat-run-utils.ts:22-33 | at every moment of every run the loaded rows have the contents of the server rows if and only if each is unchanged since the answer that last delivered it |
| RefetchContents.CurrentIffNotRewritten | lib/agents/transcript-draft.ts:25-60 | if no rewrite brings back an answered version: if and only if none was rewritten since that answer |
| RefetchContents.StretchIsExactIffUnchanged | components/chat/chat-run-utils.ts:22-33 | while pages meet: the confirmed rows are, contents and all, a stretch of the table if and only if each is unchanged since that answer |
| RefetchDrafts.RefetchIsCurrentIffLoadedUnchanged | components/chat/chat-run-utils.ts:25-33 | after a refetch that nothing interrupts the contents are right if and only if no row loaded before, at or before the anchor, had changed since it was delivered |
| RefetchDrafts.PassedRowsNeverChange | lib/stores/threads.ts:341-351 | a loaded row that no request in flight can bring stays exactly as it is under every run |
| RefetchDrafts.StaleRowsStayStale | lib/stores/threads.ts:341-351 | such a row that was rewritten since it was delivered stays stale under every run, unless the server itself brings the delivered version back |
| RefetchDrafts.FinishedRowsStayCurrent | lib/stores/threads.ts:516-550 | such a row that is current and finished stays current if only drafts are rewritten |
| RefetchDrafts.DraftIsNeverCompleted | lib/agents/run-thread.ts:1357-1364 | a run: a page ends with a draft, the draft is completed in its row, the refetch is answered with nothing and the list keeps the draft |
| ValueCaches.ValueCache.Write | api/client.ts:118-125 | the new record: value stored, request and revision bumped, nothing in flight |
| ValueCaches.ValueCache.Invalidate | api/client.ts:127-133 | the new record: empty, request and revision bumped, nothing in flight |
| ValueCaches.ValueCache.Read | api/client.ts:285-299 | serves a fresh value, joins the request in flight, or issues a numbered request |
| ValueCaches.ValueCache.Respond | api/client.ts:300-309 | commits a current response; a superseded one follows the newer request, copies the cached value or refetches |
| ValueCaches.ValueCache.Fail | api/client.ts:310-317 | a failed request leaves `inflight` only if it is the one in flight |
| CacheProtocol.StepKeeps | api/client.ts:118-133 | every event keeps: `inflight` is empty or the unsettled newest request, delegation goes to larger numbers, versions and promises are fresh, refetches are paid for |
| CacheProtocol.EveryValueIsFresh | api/client.ts:285-309 | in every reachable state the cached value, any served value and any delivered value are at least the server version of the latest invalidation before their moment, also after patches |
| CacheProtocol.CommitsNeverGoBack | api/client.ts:301-308 | versions committed by fetches never go backwards |
| CacheProtocol.SupersededNeverCommits | api/client.ts:302-307 | a fetch in flight at a patch, an invalidation or a newer request never commits afterwards |
| CacheProtocol.Leader | api/client.ts:303-304 | delegation chains ascend and so end at a request that does not delegate |
| CacheProtocol.LeaderIsFresher | api/client.ts:303-304 | the value at the end of a chain is no older than the invalidations that the follower's own response came after |
| CacheProtocol.EveryCallerIsServed | api/client.ts:296-319 | once no fetch is outstanding every caller has a value or a failure, and a superseded caller's value is fresh |
| CacheProtocol.FollowersFailSilently | api/client.ts:310-317 | the catch callback of any settled or delegating request leaves the cache alone |
| CacheProtocol.SettlesOnce | api/client.ts:300-319 | a settled promise never changes, and a value is delivered as the cache content of that moment |
| CacheProtocol.DeliveredWasCached | api/client.ts:303-307 | every value ever delivered was the cache content right after some step of the run |
| CacheProtocol.RefetchesAreBounded | api/client.ts:302-306 | recursive refetches never exceed invalidations plus failures of the request in flight |
| CacheProtocol.RefetchBoundIsTight | api/client.ts:302-306 | for every n some run reaches the bound |
| CacheReads.ReadsAreAnsweredByAge | api/client.ts:292-299 | in every reachable state a read is answered from the cache if and only if it is not forced and the held value was stored by a commit or patch less than 30 seconds before; it joins a request if and only if it is not forced, the value is not young and that request is in flight; otherwise it issues one |
| CacheReads.ReadsIssueIff | api/client.ts:293-319 | a forced read always adds a request; an unforced one adds none if and only if the value is young or a request is in flight; no read adds two or touches the others |
| CacheReads.CommitsIffUndisturbed | api/client.ts:297-308 | a response is committed, with the moment of its arrival, if and only if since its request was issued nothing was stored or invalidated and no other request was issued |
| CacheReads.SupersededAnswers | api/client.ts:302-307 | the caller of any other response gets the answer of the request in flight; without one the value stored last; without that the answer of a new request |
| CacheReads.RequestsAreBounded | api/client.ts:296-307 | over every run the cached value is at least as new as the server at the latest invalidation, and all requests ever issued are at most the reads, invalidations and failures together |
| CacheMutations.MutationIsVisibleIff | api/client.ts:485-500 | in every reachable state a mutation is in every list the cache holds from then on, under every run, if and only if the list was held or no fetch was in flight |
| CacheMutations.MutationCanStayHidden | api/client.ts:485-490 | a run in which a fetch from before the mutation commits the old list, which is served for the time to live |
| StartupReads.StartupTable.StartupRead | api/client.ts:360-382 | deletes expired entries, shares a live one, else evicts the oldest key at sixteen and adds an entry |
| StartupReads.StartupTable.Resolve | api/client.ts:373-375 | a resolved request stamps its own entry |
| StartupReads.StartupTable.Reject | api/client.ts:376-379 | a rejected request removes the entry of its path only if it is its own |
| StartupReads.StartupTable.BeforeRequest | api/client.ts:384-387 | a mutation clears the table; any other request that is not a startup read drops its path |
| StartupReads.StartupTable.AfterAttempt | api/client.ts:452-453 | every attempt of a mutation clears the table at its end |
| StartupReads.TableIsBoundedAndClean | api/client.ts:357-382 | over every run at most sixteen entries, one per path, none rejected |
| StartupReads.ReadsSeeEveryClear | api/client.ts:360-387 | a read is answered by a request begun and sent after the latest clear of every mutation and submission; what it shares is younger than the time to live |
| StartupReads.ReadsSeeTheLastAttempt | api/client.ts:452-453 | if the last attempt of a change ends as event k of a run, every later read is answered by a request begun and sent after k |
| StartupReads.SettlementIsABarrierIffNothingLingers | api/client.ts:444-456 | for reads with any clock: after a mutation or submission has settled no read is ever answered by a request begun before, if and only if the table keeps no startup read begun between its last clear and its settlement |
| StartupReads.SettlementIsABarrierIffLingeringExpired | api/client.ts:444-456 | with a clock that does not run backwards: no read from the settlement on is answered by a request begun before it, if and only if every such entry has expired by then |
| StartupReads.NextReadIsOvertakenIff | api/client.ts:367-368 | the next read of a path shares an older request if and only if such a startup read of the path has not expired |
| StartupReads.QuietGapLeavesTableEmpty | api/client.ts:444-456 | nothing lingers if no startup read begins after the last clear |
| StartupReads.SettlementCanBeOvertaken | api/client.ts:444-456 | a mutation begins, its attempt ends, a startup read begins, the mutation settles: the next read shares the earlier request |
| StartupRetention.ReadsKeepTheSixteenNewest | api/client.ts:360-382 | over every run a read shares a response if and only if one of its path is live, and otherwise begins a request, which is held; of the others exactly the live ones stay, but if sixteen are live the one requested first goes |
| StartupRetention.OthersKeepExactly | api/client.ts:373-387 | over every run, what every other event leaves in the table: mutations and submissions clear it when they begin and when an attempt ends, a request that is no startup read drops its own path, a rejection its own entry, a resolution stamps its own entry |
| RunSubscription.Subscription.WakeAll | api/client.ts:1543 | wakes every waiter |
| RunSubscription.Subscription.OnMessage | api/client.ts:1546-1559 | queues the payload, marks a terminal one as the end, wakes the consumer |
| RunSubscription.Subscription.OnOpen | api/client.ts:1569-1576 | disarms the connect timeout |
| RunSubscription.Subscription.OnError | api/client.ts:1577-1589 | a closed source ends the stream; an error before the first open fails it; others are ignored |
| RunSubscription.Subscription.OnTimeout | api/client.ts:1600-1614 | fails a stream that has neither opened nor ended |
| RunSubscription.Subscription.OnAbort | api/client.ts:1616-1624 | ends the stream and closes the source |
| RunSubscription.Subscription.Pull | api/client.ts:1627-1636 | yields the next payload, throws, ends, or parks on a new waiter |
| RunSubscription.StepKeeps | api/client.ts:1538-1642 | received is yielded plus queued; parked means one waiter and no work; finished means drained and closed |
| RunSubscription.NothingIsLostAndNoSleepOnWork | api/client.ts:1538-1642 | for all orders of events: yielded is a prefix of received, an end or an error comes only after the queue is drained, and the consumer never sleeps on work |
| RunSubscription.WorkWakes | api/client.ts:1543-1624 | every event that brings work leaves the consumer awake |
| RunSubscription.DoneStreamsDrain | api/client.ts:1627-1636 | a done stream hands over everything queued and then ends, with its error if there is one |
| RunSubscription.OpenDisarmsTimeout | api/client.ts:1569-1614 | after an open the connect timeout can no longer fire |
| RunOutcomes.OutcomesTellTheEvents | api/client.ts:1538-1642 | over every run: what is yielded is a prefix of the payloads in order; a normal end means that a terminal payload, a final error or an abort came and no error before the open; what is thrown is the error that happened; a parked consumer means that none of these came |
| RunOutcomes.PullsFinishIffEnded | api/client.ts:1627-1636 | as many pulls as payloads are left, and one more, finish the iterator if and only if the stream has ended, with the error that happened, and otherwise park it with everything given |
| RunOutcomes.ResourcesAreReleased | api/client.ts:1573-1640 | over every run: when exactly the source can still deliver, the timeout can still fire and the abort is still heard |
| StreamSession.Stream.FlushPending | hooks/useSSE.ts:115-133 | moves pending text and thinking into what is rendered and its mirror |
| StreamSession.Stream.ScheduleFlush | hooks/useSSE.ts:135-142 | asks for one frame, or flushes at once where there are none |
| StreamSession.Stream.CancelPendingFlush | hooks/useSSE.ts:154-161 | cancels the frame and drops what is pending |
| StreamSession.Stream.SplitContent | hooks/useSSE.ts:175-181 | returns rendered plus pending text and empties both |
| StreamSession.Stream.RestoreContent | hooks/useSSE.ts:183-188 | puts text in front of what is rendered |
| StreamSession.Stream.OnDone | hooks/useSSE.ts:513-542 | flushes, disarms, and freezes the text under the armed id |
| StreamSession.Stream.RollbackSegment | hooks/useSSE.ts:299-307 | disarms, restores the first segment of the id and drops all segments of that id |
| StreamSession.Stream.Consume | hooks/useSSE.ts:453-565 | the event loop leaves the state of the run of its events up to and with the first `done` or `error`; it asks for a reconnect if and only if that is a `done` and a non-empty id was armed |
| StreamSession.StepSimulates | hooks/useSSE.ts:115-199 | each step does to rendered-plus-pending text what the one-string machine does to its string |
| StreamSession.BufferRefinesImmediateAppend | hooks/useSSE.ts:115-199 | over every run with any frame timing the buffer is the one-string machine; the mirror is what is rendered, that is a prefix of the live text, and text not yet rendered has a frame due |
| StreamSession.FrameTimingIsInvisible | hooks/useSSE.ts:135-142 | the same steps give the same text however frames fire, even where there are none |
| StreamSession.DueFrameRendersAll | hooks/useSSE.ts:115-133 | when the remembered frame fires, everything is rendered |
| StreamSession.WhatIsOnScreen | hooks/useSSE.ts:457-515 | at every moment of every run: tool boundaries, snapshots, `done` and stop put all received text on screen, quiet events change nothing, a delta waits for a frame where there are frames, and a cut or restarted session leaves no frame of its own due |
| StreamSession.DoneFreezesIffArmed | hooks/useSSE.ts:513-529 | a `done` moves the live text, if any, into a new segment under the armed id if that is not empty, and otherwise leaves text and segments; it always disarms |
| Steering.SteeringConservesText | hooks/useSSE.ts:513-529 | frozen segments then live text are all deltas received, for any arms, dones and newest-segment rollbacks |
| Steering.SteeringConservesCharacters | hooks/useSSE.ts:292-307 | with fresh ids any rollback conserves the multiset of characters |
| Steering.BegunSessionsHoldTheirDeltas | hooks/useSSE.ts:292-307 | after the begin of a run both laws speak of the deltas received since alone |
| Steering.ConsumedStreamsRefine | hooks/useSSE.ts:453-565 | the event loop leaves what the one-string machine makes of its events up to the first `done` or `error`, and after a `done` nothing waits for a frame |
| Steering.ConsumedStreamsHoldTheirDeltas | hooks/useSSE.ts:453-565 | without snapshot, reset or error the event loop leaves segments and live text as the old ones and all its deltas |
| Steering.RepliesHoldTheirDeltas | hooks/useSSE.ts:513-529 | after a reply of deltas and its `done`, segments and rendered text are the old text and all deltas; with a steer armed all of it is in segments |
| Steering.ConsumeReply | hooks/useSSE.ts:453-565 | the same of the loop that runs, with the flag that it returns |
| Steering.RollbackKeepsOrderIff | hooks/useSSE.ts:299-307 | a rollback keeps the order if and only if the restored text commutes with what was frozen after it |
| Steering.OlderRollbackReorders | hooks/useSSE.ts:299-307 | an example in which it does not |
| Steering.RollbackUndoesSplit | hooks/useSSE.ts:295-307 | arm, done, rollback restores the live text and the segments |
| Steering.RollbackKeepsCharactersIffIdUnique | hooks/useSSE.ts:302-305 | with non-empty segments characters are kept if and only if the id is not repeated |
| ToolGroups.GroupEvents | components/chat/ToolList.tsx:289-342 | the event loop computes the first-pass fold: one group per id, updated by call, progress and result |
| ToolGroups.IndexHandoffs | components/chat/ToolList.tsx:348-354 | indexes the async groups by key, the last one of a key winning |
| ToolGroups.AbsorbReaders | components/chat/ToolList.tsx:355-391 | the second pass reads each reader call into its handoff and absorbs it |
| ToolGroups.GroupByCallId | components/chat/ToolList.tsx:289-396 | both passes, then the groups that are not absorbed |
| ToolGroups.ActiveToolNames | hooks/useSSE.ts:62-69 | the Map loop computes the label fold |
| ToolCards.OneGroupPerId | components/chat/ToolList.tsx:290-310 | the first pass has one group per distinct id, in first-seen order, none absorbed or read |
| ToolCards.MergeIsPointwise | components/chat/ToolList.tsx:355-391 | on every first pass, the in-place second pass equals a per-group outcome: the group after the calls that read it, absorbed if its own turn gives it a target |
| ToolCards.CardsAreConserved | components/chat/ToolList.tsx:355-396 | on every stream distinct ids are visible cards plus absorbed calls, and visible cards keep first-seen order |
| ToolCards.HandoffShowsLastReader | components/chat/ToolList.tsx:363-393 | on every stream and for every group: absorbed if and only if it has a target, read if and only if some call reads it, and showing the last done or failed reader or else its own result |
| ToolCards.EveryReaderHasCardIffUnchained | components/chat/ToolList.tsx:355-396 | on every stream each absorbed call has another, visible card marked as read, if and only if no call reads a call that reads one itself |
| ToolCards.EveryReaderHasCardIffAimsUnchained | components/chat/ToolList.tsx:355-396 | if handed-off calls have names and reader calls among them key arguments, that is so if and only if no group that a reader names after the first pass is itself a reader call for a known handoff |
| ToolCards.AbsorbedReadersHaveCards | components/chat/ToolList.tsx:355-391 | in particular it is so if groups have names and no reader call is handed off |
| ToolCards.FixedCallsAim | components/chat/ToolList.tsx:355-365 | for such calls the target at their turn is the one the first pass names |
| ToolResults.CardsTellTheirEvents | components/chat/ToolList.tsx:289-342 | on every stream each group of the first pass shows what the events of its id say: first name or first rename, arguments of the last call, last result, its status, the last deadline set, and the progress texts in order |
| ToolReadings.ReadersFindTheLastHandoff | components/chat/ToolList.tsx:348-365 | a call reads a handoff if and only if it is a reader call that names, by its argument or else by its result, a key under which that is the last call handed off |
| ToolReadings.CardsShowTheirLastResult | components/chat/ToolList.tsx:329-341 | a card that no finished reader call was read into shows the last result of its id, unwrapped and without the dispatcher's envelope if it was routed: failed if and only if that is an error, async if and only if it is a handoff and no error, running if and only if there is none |
| ToolReadings.CardsShowTheirLastReading | components/chat/ToolList.tsx:372-388 | a card that finished reader calls were read into shows what the last of them brought: a done value, failed if it is an error and else good, or a failure |
| ToolReadings.NamelessCardsTakeTheFirstReading | components/chat/ToolList.tsx:366-371 | a card whose events carry no name shows the tool that the first reading names |
| ToolChains.ChainLosesResult | components/chat/ToolList.tsx:355-396 | a stream of three calls: the reader of a handed-off reader is done, both vanish, and the handoff keeps its own async result |
| ToolChains.LostArgumentsHideTheCall | components/chat/ToolList.tsx:1528-1548 | a handed-off reader call without arguments takes its own key from its result and leaves no card |
| ToolLabels.LabelKeepsOpenCalls | hooks/useSSE.ts:62-69 | the label keeps exactly the ids whose last call or result is a call |
| ToolLabels.CardsRunUntilAnyResult | components/chat/ToolList.tsx:289-342 | the running cards are exactly the ids with an event and no result |
| ToolLabels.FoldsAgreeIffOrderly | hooks/useSSE.ts:55-69 | on any stream label and cards agree about an id if and only if its events are orderly |
| ToolLabels.FoldsAgreeInOrderIff | hooks/useSSE.ts:55-69 | on any stream they list the same ids in the same order if and only if all ids are orderly and running tools were called in the order of their first events |
| ToolLabels.FoldsAgreeInOrder | hooks/useSSE.ts:55-69 | in particular on streams where each id opens with a call and no call follows a result of its id |
| ToolLabels.RepeatedCallDrifts | hooks/useSSE.ts:55-69 | a repeated call after a result makes them differ |
| ToolNames.CardShowsName | components/chat/ToolList.tsx:310-322 | a running card shows the first name of its events, or for the dispatcher the first tool it was sent to |
| ToolNames.LabelShowsLastCall | hooks/useSSE.ts:62-69 | the label shows the name of the last call |
| ToolNames.LabelNamesLastCalls | hooks/useSSE.ts:62-69 | the label is the names of the last calls of the ids it lists, in their order |
| ToolNames.NamesAgreeIff | hooks/useSSE.ts:55-69 | on any stream both show the same name for an id if and only if the name of its last call is that name |
| ToolNames.NamesAgreeIffUndispatched | components/chat/ToolList.tsx:310-322 | for an id with one event name: if and only if that is not the dispatcher, or no call of the id is dispatched to another tool |
| ArtifactFiles.Folder.List | lib/files.ts:90-115 | lists the readable safe-named files, newest first, with their totals |
| ArtifactFiles.PlanDeletions | lib/files.ts:119-139 | computes the plan: expired managed files, then the oldest others while the cap is exceeded |
| ArtifactFiles.CollectExpired | lib/files.ts:124-127 | the age loop collects exactly the expired files in order |
| ArtifactFiles.EvictOldest | lib/files.ts:134-138 | the size loop takes the shortest prefix that brings the bytes within the cap |
| ArtifactFiles.Folder.UnlinkAll | lib/files.ts:142-148 | removes the planned files except those whose unlink fails |
| ArtifactFiles.Folder.Cleanup | lib/files.ts:117-158 | the whole call: new folder, report and inventories; a dry run changes nothing |
| ArtifactCleanup.CleanupIsCorrect | lib/files.ts:117-139 | only managed files go, every expired one goes, none is newer than a retained managed one, bytes are exact, the end is within the cap or has no managed file, size evictions were needed |
| ArtifactCleanup.BytesAreConserved | lib/files.ts:129-138 | total bytes are retained plus deleted bytes |
| ArtifactCleanup.UndoingLastEvictionExceedsCap | lib/files.ts:134-138 | without the last size eviction the cap would be exceeded |
| ArtifactCleanup.FolderAfterCleanup | lib/files.ts:142-149 | with no failing unlink the folder lists exactly the retained files |
| ArtifactCleanup.CleanupIsIdempotent | lib/files.ts:117-158 | with the same clock and policy a second cleanup deletes nothing |
| ArtifactCleanup.DryRunThenCleanup | lib/files.ts:117-158 | a dry run reports what the real run deletes, the books balance, and a repeated run changes nothing |
| ArtifactCleanup.ReportAddsUpIffOnlyEmptyFilesStuck | lib/files.ts:143-153 | the reported bytes are the drop in the total if and only if only empty files resisted |
| ArtifactRetention.OnlyOwnedNamesGo | lib/files.ts:117-181 | on every folder, told by entry names: what goes is a listed file named browser- under that flag, or generated-, voice-, image- or img- under the other; every other entry stays as it was; such a file older than the days of the policy, at least one, goes unless it resists; and nothing that goes is newer than such a file that stays |
| ArtifactRetention.CleanedFolderFits | lib/files.ts:129-139 | if nothing resists, the folder is within the megabytes of the policy, at least one, or no such file is left; and a file that is not too old goes only if with the last such file that went the limit would be exceeded |
| ArtifactRetention.InventoryTellsTheFolder | lib/files.ts:105-167 | the listing is newest first with ties in folder order, and its totals are the bytes of all listed files, of those named browser-, and of the generated ones |
| ArtifactRetention.CleanFolder | lib/files.ts:117-158 | the same of a cleanup that runs, with the totals it reports |
| TierProportions.NormaliseIsClose | components/agents/TierProportionBar.tsx:287-293 | integers summing to 100, hot and warm within one half and facts within one of the exact share |
| TierProportions.PercentsAddUp | components/agents/TierProportionBar.tsx:284-293 | the percents sum to 100 for all weights, and are 60, 25 and 15 without a positive sum |
| TierProportions.OnlyFactsCanBeNegative | components/agents/TierProportionBar.tsx:284-293 | for weights that are not negative only facts can be negative, never below -1, and exactly when |
| TierProportions.FactsReachesMinusOne | components/agents/TierProportionBar.tsx:287-293 | weights for which facts is -1 |
| TierProportions.NormaliseFixesPercents | components/agents/TierProportionBar.tsx:34-36 | integer percents summing to 100 are a fixed point |
| TierProportions.MoveIsValidIff | components/agents/TierProportionBar.tsx:259-282 | a move leaves the third tier alone and gives a valid bar if and only if that tier has 5 to 90 percent |
| TierProportions.MoveIsNearest | components/agents/TierProportionBar.tsx:259-282 | the handle lands as near to the pointer as any valid position |
| TierProportions.DragsLandNearest | components/agents/TierProportionBar.tsx:57-73 | a drag to any position, also outside the bar, lands at least as near to the pointer as any valid bar with the same third tier |
| TierProportions.EveryHistoryStaysValid | components/agents/TierProportionBar.tsx:57-86 | every history of drags and key presses stays valid and keeps an untouched tier |
| TierProportions.NudgeLands | components/agents/TierProportionBar.tsx:75-86 | an arrow key moves the boundary one step on, or to the limit |
| TierProportions.OppositeNudgesCancelIff | components/agents/TierProportionBar.tsx:75-86 | a key and its opposite cancel if and only if the first was not cut off, or the handle stood at the opposite limit |

## Left out

- React rendering, state batching and the `streaming` flag: setters take effect at once, and an updater function runs once.
- HTTP, EventSource and file-system calls: their outcomes are events and parameters; EventSource behaves as in section 9.2 of the WHATWG HTML standard, so a closed source is silent.
- Microtask delays between a promise's settlement and its callbacks: a callback runs at the event that causes it.
- Returning from the run iterator while it is parked: consumers stop it only between payloads.
- JSON parsing, LangChain unwrapping and the payload classifiers: `Readers` leaves them as arbitrary functions, so the card theorems hold for all of them.
- Workflow attempt annotation, tool events held by the stream session, activity labels and toasts.
- `cloneRows` and `structuredClone`: values cannot be aliased in the model, so the copies do not appear.
- The Maps of the tool folds and of the startup table are lists in insertion order, which is the order in which ECMAScript iterates a Map.
- ISO date strings: times are integers, so an unparsable date and a locale comparison have no counterpart.
- Floating point: the tier bar is over real numbers, without rounding error, NaN or infinities.
- Retry classification and time limits of `request`: a retry is an event that resends a startup request.
- Loading older pages, cross-device replacement of the list and the hidden-for-retry map.
- Deleted server rows (pruned history, merged automation activities): the list would keep them until a replacement, which is left out too.
- RefetchDrafts.FinishedRowsStayCurrent: runs in which only drafts are rewritten; automation activities, queued user rows and metadata merges also rewrite finished rows, to which `StaleRowsStayStale` applies.
- CacheMutations.MutationIsVisibleIff: the model list, which is invalidated when it is not held, is covered by `CacheProtocol.EveryValueIsFresh`.
- ChatRuns.ChatIsSafe: optimistic ids are new each time and no server id has their prefix, as the random id generator makes practically certain.
- MessagePromotions.MergePopsTheQueue: bubbles have no seq and no server row has the id of a bubble, which holds at every moment of every run of `ChatRuns`.
- Steering.SteeringConservesText: runs without snapshot, reset, error or clear, which replace or cut the text on purpose; `StepSimulates` says what each of those does.
- ArtifactFiles.Folder.Cleanup: entry names are distinct wherever a theorem counts files, as in a directory; concurrent changes of the folder appear only as unlinks that fail.
- The list-state, session and filter guards that repeat the cache argument in a weaker form, the browser extension, the proxy and the CRUD hooks: they would add only easy members.
