# Juke client models

Models of the parts of the Juke mobile client (`farcaster-audio/`) whose
correctness spans several functions or many interleavings, with proofs:

- **Direct Cast threads.** A thread is a partial window, paged in both
  directions, onto a timeline that grows on the server. `Messages`, `Threads`,
  `Inbox` and `MessageStore` model the store; `Conversation` and `ThreadRuns`
  put a thread beside the timeline and follow page loads, jumps, polls, pushes
  and local edits in any order, and `ThreadPaging` follows the cursors to both
  ends; `DraftQueue`, `SendSteps` and `SendMessage` follow the draft send queue,
  retries and draft adoption; `ReadState` places the unread separator and
  `MessageSearch` follows search paging.
- **Concurrent protocols.** `MessagesEvents` is the events socket's reconnect
  machine and `AuthRefresh` the single-flight token refresh. Each is a class
  whose handlers are proved against value-level steps; the theorems are about
  every interleaving of those steps.
- **Algorithms.** `SnapClient` (the element-tree walk), `ReplyChain`,
  `Discovery` and `SpaceStore` (the discovery feed), `Base64Url` (both encoders
  and the token), `CanonicalJson` and `JsonText` (the text that is signed),
  `SentryScrub` (the recovery-phrase redactor), `CastTextTokens`.
  `StableSorting` and `UniqueItems` hold what several of them share.

What each step does is stated a second time without the functions that define
it: on rows, cursors, codes and delays by `ThreadEffects`, `StoreEffects`,
`SendEffects`, `EventReactions`, `AuthEffects` and `SpaceEffects`; on the texts
themselves by `JsonParser` and `JsonRoundTrip` (a reader of JSON that knows
nothing of the writer), `JsonKeys`, `ScrubParts` and `CastEntities`.

Code that updates fields, or loops over variables, is modelled by classes and
methods with loops, each proved against a specification function; the lemmas
are about those functions. Strings that the client compares or takes apart are
sequences of UTF-16 code units (`JsStrings`), and absent values are `Options`.
The clock, random ids, servers, regular expressions and the URL parser enter
as parameters or as steps of an environment.

`dafny verify dfyconfig.toml` checks everything.

## What turned out differently

Each of these is stated by lemmas: the exact condition, and where the
property fails a concrete input.

- A jump or a `/recent` poll counts any shared row as overlap. When all they
  share is an unconfirmed send, or a message that only a push has brought,
  joining opens a gap, and the poll stamps it synced (`JumpStaysContiguousIff`,
  `MergeStaysContiguousIff`, `JoinedJumpCoversIff`; the inputs are
  `UnconfirmedOverlapOpensAGap`, `UnconfirmedOverlapMisleadsThePoll` and
  `PushedOverlapMisleadsThePoll`). An older or newer page is applied to whatever
  window it finds; one that lands after a jump opens a gap unless it touches the
  new window (`MergeStaysContiguousIff`; the input is `StalePageOpensAGap`).
  `NoSilentGap` therefore speaks of runs in which every page or poll fits the
  window. A guard on what the thread holds is enough: join only on a row that a
  page or a poll has brought, and take an adjacent page only while the cursor
  that fetched it is still the window's (`GuardedRunsAreLegal`).
- The recovery limit of five bounds the refreshes between two opens only when
  no `session_expired` close finds a refresh already done and no unauthorized
  close arrives after stopping; each can add one. The bound of five plus those
  two is attained in every combination (`RefreshesAreBounded`,
  `OrderlyRunsStayWithinFive`, `RefreshBoundIsTight`).
- A rate-limited close or ticket waits at least a minute only if no shorter retry
  is pending: the reconnect timer that is armed stays (`RateLimitedCloseWaits`,
  `RateLimitedMintWaits`; the input is `ShortRetryOutlivesARateLimit`). And the
  wait ends early when the machine stops; if it stopped by giving up, a
  foreground then connects at once (`RateLimitWaitLasts`, `StoppedUntilRestarted`;
  the input is `GivingUpCutsTheWait`).
- `retry` trusts the row it is handed. If the store has confirmed that row
  meanwhile, a later error marks it failed (`RetryThenErrorFailsTheRow`,
  `StaleRetryFailsConfirmedIff`; the input is `StaleRetryFailsAConfirmedSend`).
  Retries in the runs of `SendMessage` are of rows that are failed in the store.
- `discard` trusts it as well, and the screen hands it the row captured when the
  menu was opened. A row confirmed meanwhile leaves the window, which opens a
  gap unless it is at an end (`RemovingStaysContiguousIff`; the input is
  `StaleDiscardOpensAGap`). Retries and discards in the runs of `ThreadRuns` are
  of rows the store has not confirmed.
- `validateSnapStructure` looks elements up in a plain object, so names that
  every object inherits (`constructor`, `toString`) are found as elements without
  children. All reachable elements exist exactly when no such name is reached
  (`AcceptedElementsExistIff`; the inputs are `InheritedRootIsAccepted` and
  `InheritedChildIsAccepted`).
- `runRefresh` takes its session generation after reading storage, so a login
  between the two is overwritten by the refresh (`RefreshReplacesItsOwnTokenIff`,
  `LoginDuringReadIsOverwritten`).
- `sortKeysDeep` is called sorted, but integer-like keys come out first and in
  numeric order, as JavaScript objects enumerate them (`SortedByCodeUnitIff`,
  `NumericKeysAreNotLexicographic`). Canonicity is not affected.
- URL trimming strips punctuation once, before brackets, so punctuation bared
  by removing a bracket stays (`TrimmingTwiceIff`, `BaredPunctuationStays`).
- The comments of `mergeDiscoverySpaces.ts` (lines 8-11) put the
  soonest-upcoming scheduled room first; the code sorts scheduled rooms by time
  descending, so the latest comes first (`SoonestFirstIff`, `LaterRoomComesFirst`).
- Redaction is idempotent even for a word list that contains `redacted`: the
  brackets around the mark end every run (`RedactionIsIdempotent`).

## Model

| member | source | states |
|---|---|---|
| `JsStrings.LessIsTotal` | farcaster-audio/stores/messageStore.ts:198-201 | two different ids are ordered one way or the other by `<` on code units, so the tie-break of the newest-first order never leaves two messages unordered |
| `JsStrings.LessIsTransitive` | farcaster-audio/stores/messageStore.ts:198-201 | and that order is transitive |
| `Messages.MergeById` | farcaster-audio/stores/messageStore.ts:209-215 | the two-loop `Map` merge and its sort return the specification window of both lists (see the rows below) |
| `Messages.SetAll` | farcaster-audio/stores/messageStore.ts:212-213 | filling a `Map` from a list is the right-biased map union, and the insertion order lists each key once |
| `Messages.WindowIsSortedUnion` | farcaster-audio/stores/messageStore.ts:209-215 | the specification window is strictly newest-first and holds exactly the rows of the right-biased union |
| `Messages.WindowsWithSameRowsAreEqual` | farcaster-audio/stores/messageStore.ts:198-215 | two strictly newest-first lists with the same rows are the same list, so the sort's algorithm and the insertion order do not matter |
| `Messages.SortNewestIsWindow` | farcaster-audio/stores/messageStore.ts:198-214 | sorting rows with distinct ids by the comparator gives a strictly newest-first list of the same rows |
| `Messages.ReplaceMessageIsWindow` | farcaster-audio/stores/messageStore.ts:217-221 | replacing a message in a window gives the window of all other rows and that message |
| `Messages.MergeMessagesRows` | farcaster-audio/stores/messageStore.ts:235-247 | after a merge of a server page, every id of the page has its confirmed server copy and every other row is unchanged, pending ones included |
| `Messages.MergingPagesIsMergingTheirUnion` | farcaster-audio/stores/messageStore.ts:235-247 | merging two server pages one after the other gives the same window as merging them together |
| `Messages.DisjointPagesCommute` | farcaster-audio/stores/messageStore.ts:235-247 | pages that share no id can be merged in either order |
| `Threads.ApplyKeepsThreadOk` | farcaster-audio/stores/messageStore.ts:249-308 | every action on a thread leaves it strictly newest-first with distinct ids, its flags agreeing with its cursors (also lines 520-665) |
| `Threads.PendingRowLeavesOnlyWhenSettled` | farcaster-audio/stores/messageStore.ts:520-626 | an unconfirmed row survives an action if and only if the action neither delivers its server copy, nor discards it, nor jumps to a disjoint window; and delivery leaves a confirmed row |
| `Threads.PageSettles` | farcaster-audio/stores/messageStore.ts:520-552 | the same for each of the four page modes: a page load drops an unconfirmed row exactly when the page mentions it or is a disjoint jump |
| `Threads.ConfirmedRowNeverFails` | farcaster-audio/stores/messageStore.ts:605-612 | no action but a retry of that very row, or a local upsert of its id, makes a confirmed row pending or failed; a late request error leaves the thread untouched |
| `Threads.ClampedSendLandsOnTop` | farcaster-audio/hooks/useSendMessage.ts:42-49 | a send whose time is clamped against the newest row is the first row after the upsert, whatever the device clock says (used at lines 193-203) |
| `ThreadEffects.ClampedTime` | farcaster-audio/hooks/useSendMessage.ts:42-49 | a clock ahead of the newest row is taken as it is; otherwise the send is one millisecond after that row |
| `Threads.EchoKeepsWhatIsKnown` | farcaster-audio/stores/messageStore.ts:326-349 | a send echo wins over the optimistic row in every field but two: a missing or placeholder quote gives way to the local quote, if there is one, and missing metadata to the local metadata |
| `Threads.ReactingThenUnreactingRestores` | farcaster-audio/stores/messageStore.ts:385-403 | adding a reaction and taking it back restores the summaries if and only if the viewer had not reacted and the entry, if any, had a positive count |
| `ThreadEffects.RowActionsKeepThePaging` | farcaster-audio/stores/messageStore.ts:352-365 | no action on rows moves a cursor, a flag or a sync stamp, or removes a thread; a push, send or echo for a missing thread creates one that counts as loaded, and nothing else but a page creates one (also lines 554-626) |
| `ThreadEffects.PollsTouchTheTailOnly` | farcaster-audio/stores/messageStore.ts:554-572 | a poll is merged, and a sync stamped, if and only if the thread is loaded and at the tail |
| `ThreadEffects.PageRowsAreThePages` | farcaster-audio/stores/messageStore.ts:235-247 | a row of a merged window is a page message without its send state, or an old row the page does not mention; every page id and every such old row is there |
| `ThreadEffects.UpsertShowsTheRow` | farcaster-audio/stores/messageStore.ts:574-586 | after an upsert the message is the one row of its id, and rows of other ids are as before |
| `ThreadEffects.ErrorFailsTheRow` | farcaster-audio/stores/messageStore.ts:605-612 | after an error the unconfirmed row of that id is the same row, failed, and no other row differs |
| `ThreadEffects.RetryReopensTheRow` | farcaster-audio/hooks/useSendMessage.ts:215-219 | after a retry it is the same row, sending |
| `ThreadEffects.EchoConfirmsTheRow` | farcaster-audio/stores/messageStore.ts:588-603 | after an echo the one row of its id is confirmed, whatever it was |
| `ThreadEffects.DeletionMarksTheRow` | farcaster-audio/stores/messageStore.ts:614-619 | a deletion patch sets the flag of that row and nothing else |
| `ThreadEffects.ReactionTogglesOnTheRow` | farcaster-audio/stores/messageStore.ts:657-665 | a reaction changes the summaries of that row and nothing else |
| `ThreadEffects.RemovalDropsTheRow` | farcaster-audio/stores/messageStore.ts:621-626 | a removed id has no row, and rows of other ids are as before |
| `ThreadEffects.UpdatesCreateNoRow` | farcaster-audio/stores/messageStore.ts:352-365 | an error, a patch or a reaction for an id the thread does not hold changes nothing |
| `StoreEffects.ToggleTakesEffect` | farcaster-audio/stores/messageStore.ts:385-403 | if toggling a reaction changes anything, the viewer's flag is as asked, the count is one more or one less but never negative, and the other reactions keep their entries and order |
| `Inbox.ComputeUnreadTotal` | farcaster-audio/stores/messageStore.ts:367-383 | the loop returns the sum over the listed, known, unmuted conversations of their unread count, or one if only marked unread |
| `Inbox.UniqueIdsAreDistinct` | farcaster-audio/stores/messageStore.ts:405-407 | deduplication keeps exactly the ids of the list, each once |
| `Inbox.ReplacingPageIsTheInbox` | farcaster-audio/stores/messageStore.ts:415-431 | a replacing page, the whole inbox in one page, or a first page: the list is the page, each id once, in the page's order, and paging goes on from the page's cursor exactly if it has one |
| `Inbox.MergingAPageKeepsTheLoadedTail` | farcaster-audio/stores/messageStore.ts:409-441 | merging a partial first page into a loaded list starts with the page, drops no loaded id, keeps the relative order of the rows below it and keeps the paging cursor |
| `Inbox.AppendingAPageExtendsTheList` | farcaster-audio/stores/messageStore.ts:425-427 | appending a page keeps the loaded list as a prefix, adds each new id once in the page's order, and goes on from the page's cursor |
| `Inbox.UnreadTotalIgnoresReadMarkers` | farcaster-audio/stores/messageStore.ts:687-697 | giving a conversation any other peer read marker leaves the recounted badge as it was |
| `MessageStore.Store.constructor` | farcaster-audio/stores/messageStore.ts:179-192 | the store starts in the initial state, which is consistent; every method below keeps it consistent (the two invariants of `Consistent`) |
| `MessageStore.UpsertRows` | farcaster-audio/stores/messageStore.ts:461-464 | the loop over a page's rows is the right-biased update of the conversation table |
| `MessageStore.Store.SetInboxPage` | farcaster-audio/stores/messageStore.ts:459-478 | an inbox page updates the rows, the slice, the request counters and the recounted badge, and nothing else; what the slice becomes is stated for every mode by `ReplacingPageIsTheInbox`, `MergingAPageKeepsTheLoadedTail` and `AppendingAPageExtendsTheList` |
| `MessageStore.Store.RemoveFromInbox` | farcaster-audio/stores/messageStore.ts:480-492 | removing a listed conversation drops it from that segment only and recounts |
| `MessageStore.Store.UpsertConversation` | farcaster-audio/stores/messageStore.ts:494-504 | a conversation is stored under its id and the badge recounted |
| `MessageStore.Store.PatchConversation` | farcaster-audio/stores/messageStore.ts:506-518 | a patch replaces exactly the fields it gives, of a known conversation only, and recounts |
| `MessageStore.Store.OnThread` | farcaster-audio/stores/messageStore.ts:520-626 | each thread action changes that thread as specified and no other (also lines 657-665); where cursors end up is stated by `ThreadPaging`, what happens to the rows by `ThreadEffects` |
| `MessageStore.Store.AdoptDraftThread` | farcaster-audio/stores/messageStore.ts:628-655 | the draft's rows move under the new id, merged by id, the draft key and its reply target go, and the alias is recorded; without a draft thread only the alias is |
| `MessageStore.Store.MarkReadLocal` | farcaster-audio/stores/messageStore.ts:667-685 | reading an unread conversation clears its counters and recounts; anything else is left alone |
| `MessageStore.Store.ApplyPeerRead` | farcaster-audio/stores/messageStore.ts:687-697 | a changed read marker of a known conversation is stored, the badge untouched |
| `MessageStore.Store.SetReplyTarget` | farcaster-audio/stores/messageStore.ts:722-725 | the reply target of one key is replaced |
| `MessageStore.Store.Reset` | farcaster-audio/stores/messageStore.ts:727 | everything returns to the initial state |
| `MessageStore.StepKeepsInboxConsistent` | farcaster-audio/stores/messageStore.ts:459-518 | each action keeps inbox ids distinct and known and the stored badge equal to a fresh recount (also lines 667-697) |
| `MessageStore.StepKeepsThreadsConsistent` | farcaster-audio/stores/messageStore.ts:520-665 | each action keeps every thread of the store a window |
| `MessageStore.EveryReachableStoreIsConsistent` | farcaster-audio/stores/messageStore.ts:451-728 | after any sequence of actions from the initial state both invariants hold |
| `MessageStore.AdoptionMovesEveryRow` | farcaster-audio/stores/messageStore.ts:628-655 | adopting a draft loses no row of either thread: the target holds every draft row under its new conversation id and every own row the draft does not replace |
| `MessageStore.AdoptionKeepsPending` | farcaster-audio/stores/messageStore.ts:644-647 | adoption changes only the conversation id of a draft row: an unconfirmed one is the row of its id afterwards, with the very same send state |
| `StoreEffects.InboxPageTakesEffect` | farcaster-audio/stores/messageStore.ts:459-478 | each conversation on an inbox page is stored as the page has it last, every other stays; the page's segment alone takes the page, and the request counters are the page's |
| `StoreEffects.RemovalTakesEffect` | farcaster-audio/stores/messageStore.ts:480-492 | a removed conversation leaves its segment's list, the others keep their order, and paging, rows and the other segment are untouched |
| `StoreEffects.UpsertTakesEffect` | farcaster-audio/stores/messageStore.ts:494-504 | a stored conversation is the one under its id, every other and both lists stay |
| `StoreEffects.PatchTakesEffect` | farcaster-audio/stores/messageStore.ts:506-518 | field by field, a patch sets what it gives of a known conversation and keeps the rest |
| `StoreEffects.BadgeFollowsTheConversation` | farcaster-audio/stores/messageStore.ts:494-504 | storing a conversation of the default inbox moves the badge by exactly the change of what that conversation adds to it |
| `StoreEffects.RemovalLowersTheBadge` | farcaster-audio/stores/messageStore.ts:480-492 | removing one from the default inbox takes away exactly what it added |
| `StoreEffects.ReadingTakesEffect` | farcaster-audio/stores/messageStore.ts:667-685 | reading an unread conversation clears its two counters and its flag, stamps the time, and takes away what it added to the badge; a read one is left alone |
| `StoreEffects.AdoptionTakesEffect` | farcaster-audio/stores/messageStore.ts:628-655 | adoption records the alias, drops the draft's thread and, with it, its reply target, and keeps the paging state of the conversation's thread or starts one that counts as loaded |
| `StoreEffects.PeerReadTakesEffect` | farcaster-audio/stores/messageStore.ts:687-697 | the read marker of a known conversation is the given one, the badge and everything else stay |
| `StoreEffects.ThreadActionTakesEffect` | farcaster-audio/stores/messageStore.ts:520-626 | an action on one thread changes no other thread, no inbox list, reply target or alias |
| `StoreEffects.ReplyTargetTakesEffect` | farcaster-audio/stores/messageStore.ts:722-725 | setting a reply target changes that key's only |
| `StoreEffects.ResetTakesEffect` | farcaster-audio/stores/messageStore.ts:727 | a reset leaves no conversation, list, thread, reply target or alias |
| `Conversation.MergeAddsThePage` | farcaster-audio/stores/messageStore.ts:235-247 | the server messages after a merge are those before plus the page |
| `Conversation.TouchingJumpKeepsCovers` | farcaster-audio/stores/messageStore.ts:274-308 | a joining jump whose page overlaps or adjoins a contiguous window leaves a contiguous window with both cursors at or inside its edges, and of the single pushed messages beside it those the page does not hold |
| `Conversation.DisjointJumpCovers` | farcaster-audio/stores/messageStore.ts:281-290 | a jump that shares nothing replaces the window by exactly the page, its cursors included |
| `Conversation.JumpStaysContiguousIff` | farcaster-audio/stores/messageStore.ts:274-308 | exactly when a jump leaves the server messages contiguous: no shared row, no server message in the window yet, a shared confirmed row, or an adjacent page |
| `Conversation.MergeStaysContiguousIff` | farcaster-audio/hooks/useConversation.ts:88-104 | the same exact condition for merging a `/recent` poll into the loaded window, windows without server messages and empty polls included |
| `Conversation.JoinedJumpCoversIff` | farcaster-audio/stores/messageStore.ts:274-308 | cursors and pushed messages included: a joining jump leaves a window with both cursors in place that reaches as far as before if and only if the page touches it, or the window holds no server message and the two comparisons take both cursors from a later page |
| `Conversation.RemovingStaysContiguousIff` | farcaster-audio/stores/messageStore.ts:621-626 | removing a server message from a contiguous window leaves no hole if and only if it is the oldest or the newest of them |
| `Conversation.ReachComparesPositions` | farcaster-audio/stores/messageStore.ts:294-302 | in a window without unconfirmed rows the two comparisons of a joining jump compare positions in the timeline; an equal newest message counts as reaching newer |
| `Conversation.JoinedJumpKeepsCursorsAtEdges` | farcaster-audio/stores/messageStore.ts:294-307 | without unconfirmed rows both cursors of the joined window sit exactly at its edges, each from the side that reaches further, and a window at the live tail stays attached |
| `ReadState.SeparatorCountsTheUnread` | farcaster-audio/hooks/useConversation.ts:60-78 | a separator exists exactly when something is unread and an incoming row is newer than the read marker; the incoming rows from the top down to it are all those above the marker or, with no marker in the window, as many as are unread |
| `ReadState.LastReadIsFirstMarker` | farcaster-audio/hooks/useConversation.ts:71 | the search for the read marker finds its first occurrence, or none |
| `ReadState.NthIncoming` | farcaster-audio/hooks/useConversation.ts:74-77 | the n-th incoming row sits where the rows down to it hold exactly n incoming ones |
| `ThreadRuns.StepKeepsInv` | farcaster-audio/hooks/useConversation.ts:212-229 | each load, jump or poll that fits, push, send echo, arrival or local edit keeps the thread a contiguous slice of the timeline with cursors inside it, plus single pushed messages (page loads at lines 163-175 and 276-293) |
| `ThreadRuns.EveryRunKeepsInv` | farcaster-audio/hooks/useConversation.ts:163-293 | hence every legal run does |
| `ThreadRuns.NoSilentGap` | farcaster-audio/hooks/useConversation.ts:80-104 | over every legal run, pushes and echoes included: a message between two shown ones is shown, a null older cursor means nothing older is missing, and a synced window misses nothing up to that sync, where a message only a push or an echo has brought does not count as an end until a page or poll holds it; that paging gets there is `PagingBackReachesTheStart` |
| `ThreadPaging.OlderPageMovesTheEdge` | farcaster-audio/stores/messageStore.ts:524-530 | on timeline positions: an older page fetched at the lower edge moves that edge and the older cursor to where the page starts, null exactly at the start of the timeline; the other end stays |
| `ThreadPaging.NewerPageMovesTheEdge` | farcaster-audio/stores/messageStore.ts:531-539 | a newer page moves the upper edge and the newer cursor to where the page ends; at the tail of that moment the cursor is null and the window synced and attached |
| `ThreadPaging.ReloadSetsTheEdges` | farcaster-audio/stores/messageStore.ts:542-550 | a reload shows exactly the latest page and the unconfirmed rows, with the older cursor at its start and none at the tail, synced |
| `ThreadPaging.DisjointJumpSetsTheEdges` | farcaster-audio/stores/messageStore.ts:274-291 | a jump that shares no row shows exactly the page, both cursors at its ends, synced exactly if it reaches the tail |
| `ThreadPaging.PagingBackReachesTheStart` | farcaster-audio/hooks/useConversation.ts:276-293 | after a reload, loading older pages by the current cursor ends after at most as many pages as there are older messages; while the cursor is not null there is a next page, and it is null exactly when everything from the first message to the reload's tail is shown |
| `ThreadPaging.PagingForwardReachesTheTail` | farcaster-audio/hooks/useConversation.ts:276-293 | after a jump, loading newer pages by the current cursor, while nothing arrives, ends likewise; with the cursor null the window is synced and shows everything from the jump to the newest message |
| `ThreadPaging.MergedPollSyncs` | farcaster-audio/hooks/useConversation.ts:88-104 | a poll that may be merged is merged and stamps the window synced, cursors untouched; any other leaves the thread to a reload or alone |
| `ThreadEffects.PollReloadsIff` | farcaster-audio/hooks/useConversation.ts:88-104 | a loaded window at the tail is reloaded rather than merged if and only if it was not synced within the last minute or shares no message with a poll that has some |
| `ThreadRuns.GuardedStepFits` | farcaster-audio/hooks/useConversation.ts:88-104 | an honest page or poll always fits if it is joined on a row some page or poll has brought, or was fetched by a cursor that is still the window's: a test of what the thread holds |
| `ThreadRuns.GuardedRunsAreLegal` | farcaster-audio/hooks/useConversation.ts:163-293 | so every honest run under that guard is one `NoSilentGap` speaks of |
| `ThreadRuns.ConfirmedIsLoadedUnlessPushed` | farcaster-audio/hooks/useConversation.ts:102-103 | while nothing is pushed the guard is just sharing a confirmed row |
| `ThreadRuns.GapStateIsReached` | farcaster-audio/hooks/useConversation.ts:163-229 | a legal run from an empty store, one load, one send and two arrivals, leads to a synced window that shows the first of three messages and the last as a send |
| `ThreadRuns.UnconfirmedOverlapOpensAGap` | farcaster-audio/stores/messageStore.ts:278-308 | after that run an honest page sharing only the unconfirmed send is joined, losing messages in between with no cursor left to fetch them |
| `ThreadRuns.UnconfirmedOverlapMisleadsThePoll` | farcaster-audio/hooks/useConversation.ts:88-104 | after the same run an honest `/recent` poll sharing only the unconfirmed send is merged, and the window is stamped synced with a message missing |
| `ThreadRuns.PushedOverlapMisleadsThePoll` | farcaster-audio/hooks/useMessagesBadge.ts:85-86 | a legal run in which the second message is missed and the third pushed, after which an honest poll sharing only the pushed one is merged and stamped synced with the second missing |
| `ThreadRuns.StaleDiscardOpensAGap` | farcaster-audio/hooks/useSendMessage.ts:226-233 | a legal run in which a send fails, arrives after all and is then discarded through the row captured before: a synced window has a hole and no cursor to fetch it |
| `ThreadRuns.StalePageOpensAGap` | farcaster-audio/hooks/useConversation.ts:276-293 | a legal run in which a jump replaces the window between the request for an older page and its arrival: the page is merged and leaves a hole |
| `DraftQueue.DraftSendQueues.constructor` | farcaster-audio/hooks/useSendMessage.ts:28 | no queue at start |
| `DraftQueue.DraftSendQueues.Enqueue` | farcaster-audio/hooks/useSendMessage.ts:30-40 | a send is linked behind the current tail of its key, or starts a queue, and becomes the tail |
| `DraftQueue.DraftSendQueues.Release` | farcaster-audio/hooks/useSendMessage.ts:36-38 | a settled tail clears its key only if no later one has replaced it |
| `SendSteps.StepKeepsInv` | farcaster-audio/hooks/useSendMessage.ts:124-177 | each send from a draft or into a known conversation, retry, discard, start, success, failure, release or other store write keeps the queue and store invariants (also lines 203-233); what each does to its row and its delivery is stated by `SendEffects` |
| `SendMessage.EveryRunKeepsInv` | farcaster-audio/hooks/useSendMessage.ts:124-233 | hence every run does |
| `SendMessage.NoSendIsLost` | farcaster-audio/hooks/useSendMessage.ts:178-233 | in every run an unsettled send, from a draft or into a known conversation, has exactly one row, unconfirmed, under its live thread key, through failures, retries from either screen and draft adoption; a confirmed one never turns pending or failed; that a failed delivery leaves it failed, so that it can be retried, is `FailedDeliveryIsRetriable` |
| `SendEffects.SendShowsItsRow` | farcaster-audio/hooks/useSendMessage.ts:193-206 | in every run a send shows exactly its own row, sending, under its live key; from a draft it also queues one waiting delivery behind the others |
| `SendEffects.RetryReopensItsRow` | farcaster-audio/hooks/useSendMessage.ts:210-223 | a retry sets its failed row back to sending, nothing else of it changed, and queues a delivery again |
| `SendEffects.FailedDeliveryIsRetriable` | farcaster-audio/hooks/useSendMessage.ts:133-166 | in every run a delivery that gives up, because the request failed or there is nowhere to send to, settles; if its send is still unsettled its row is now failed, otherwise unchanged, and a retry of it is enabled |
| `SendEffects.StartPutsItInFlight` | farcaster-audio/hooks/useSendMessage.ts:130-145 | any other delivery that starts goes out to the conversation the draft is known by, if there is one, and shows nothing |
| `SendEffects.DeliveredSendIsConfirmed` | farcaster-audio/hooks/useSendMessage.ts:146-154 | a delivered send has a confirmed row under the conversation the draft is known by from then on: the one it had, or the one its own echo names |
| `SendEffects.DiscardDropsItsRow` | farcaster-audio/hooks/useSendMessage.ts:225-233 | a discarded send has no row and is no longer waited for; its delivery stays queued |
| `SendEffects.ReleaseForgetsTheTail` | farcaster-audio/hooks/useSendMessage.ts:36-38 | a settled delivery is forgotten exactly while it is the last one of its draft |
| `SendMessage.OneDeliveryAtATime` | farcaster-audio/hooks/useSendMessage.ts:31-40 | in every run the deliveries of one draft go one at a time in queue order: a later one has not started, and does not start, before every earlier one has settled |
| `SendMessage.QueueNeverWedges` | farcaster-audio/hooks/useSendMessage.ts:33-38 | in every run, whatever failed before, a draft with an unsettled delivery has one in flight or one that can start |
| `SendMessage.ConversationIsCreatedOnce` | farcaster-audio/hooks/useSendMessage.ts:130-154 | in every run a draft creates its conversation at most once, and every delivery in flight after that is addressed to it |
| `SendMessage.AliasNeverChanges` | farcaster-audio/stores/messageStore.ts:730-733 | the conversation a draft resolves to never changes once it is set |
| `SendMessage.RetryThenErrorFailsTheRow` | farcaster-audio/hooks/useSendMessage.ts:210-223 | a retry checks the row it was handed, not the stored one: a later error fails the row whenever the thread holds it at all, a confirmed one included |
| `SendMessage.StaleRetryFailsConfirmedIff` | farcaster-audio/hooks/useSendMessage.ts:210-223 | in every run, of a send the store has confirmed: a stale retry and its error leave it failed if and only if its row is still there |
| `SendMessage.StaleRetryFailsAConfirmedSend` | farcaster-audio/hooks/useSendMessage.ts:210-223 | for every conversation and message a run of a send, its error and then the server copy in which a retry of the row captured in between, and its error, leave the confirmed row failed |
| `SnapClient.ValidateSnapStructure` | farcaster-audio/services/snapClient.ts:153-188 | the explicit-stack walk accepts exactly the responses with at most 64 elements of their own whose paths from the root stay within depth 4 and the child limits, reach only names the object lookup finds (inherited ones included) and never reach one twice; it terminates |
| `SnapClient.LimitsAsPublished` | farcaster-audio/services/snapClient.ts:135-146 | the limits in numbers: an accepted response has at most 64 elements, none deeper than four, at most seven children of the root and six of any other stack or item group |
| `SnapClient.WithinPublishedLimitsIsAccepted` | farcaster-audio/services/snapClient.ts:135-146 | and every tree within those numbers is accepted |
| `SnapClient.AcceptedElementsExistIff` | farcaster-audio/services/snapClient.ts:172-173 | in an accepted response every reachable id is one of its elements if and only if no inherited name is reached, and if and only if it is accepted on its own elements alone |
| `SnapClient.InheritedRootIsAccepted` | farcaster-audio/services/snapClient.ts:153-188 | a response without elements whose root is an inherited name is accepted |
| `SnapClient.InheritedChildIsAccepted` | farcaster-audio/services/snapClient.ts:153-188 | so is a stack whose only child is one |
| `SnapClient.WalkDecidesPaths` | farcaster-audio/services/snapClient.ts:165-185 | the recursive form of the walk agrees with the statement on child paths, in both directions |
| `SnapClient.PopAndPush` | farcaster-audio/services/snapClient.ts:166-184 | an accepted pop leaves the verdict of the rest of the walk unchanged |
| `SnapClient.PopAndReject` | farcaster-audio/services/snapClient.ts:166-180 | a rejecting pop implies the whole tree is unacceptable |
| `MessagesEvents.BackoffIsBoundedAndMonotone` | farcaster-audio/hooks/useMessagesEvents.ts:144-147 | each delay respects its minimum, is at most the larger of 30 s and that minimum, never decreases with the attempt, and doubles from 1 s up to the cap |
| `MessagesEvents.EventsConnection.constructor` | farcaster-audio/hooks/useMessagesEvents.ts:175-191 | mounting starts with a first connect (line 356) |
| `MessagesEvents.EventsConnection.ScheduleReconnect` | farcaster-audio/hooks/useMessagesEvents.ts:211-221 | a timer is armed with the backoff delay unless cancelled, stopped or already waiting |
| `MessagesEvents.EventsConnection.CloseSocket` | farcaster-audio/hooks/useMessagesEvents.ts:204-209 | the current socket is detached and told to close |
| `MessagesEvents.EventsConnection.Stop` | farcaster-audio/hooks/useMessagesEvents.ts:223-227 | no timer survives a stop |
| `MessagesEvents.EventsConnection.RecordAuthRecoveryFailure` | farcaster-audio/hooks/useMessagesEvents.ts:235-242 | a failure is counted; the fifth gives up, an earlier one schedules |
| `MessagesEvents.EventsConnection.HandleUnauthorized` | farcaster-audio/hooks/useMessagesEvents.ts:244-256 | an expiry forces a refresh; otherwise a refresh is started only if none landed since the last open |
| `MessagesEvents.EventsConnection.OnRefreshSettled` | farcaster-audio/hooks/useMessagesEvents.ts:257-272 | a thrown, ended or successful refresh is handled only if not cancelled |
| `MessagesEvents.EventsConnection.HandleAction` | farcaster-audio/hooks/useMessagesEvents.ts:274-294 | each close action leads to its own reaction |
| `MessagesEvents.EventsConnection.Connect` | farcaster-audio/hooks/useMessagesEvents.ts:299-301 | a connect takes the next generation unless cancelled or stopped |
| `MessagesEvents.EventsConnection.OnTokensRead` | farcaster-audio/hooks/useMessagesEvents.ts:302-303 | without tokens, or once cancelled or stopped, the connect ends |
| `MessagesEvents.EventsConnection.OnMintFailed` | farcaster-audio/hooks/useMessagesEvents.ts:307-311 | a failed mint is acted on only if its generation is current |
| `MessagesEvents.EventsConnection.OnMintSucceeded` | farcaster-audio/hooks/useMessagesEvents.ts:312-315 | a ticket opens a socket, after the old one is told to close, only if its generation is current |
| `MessagesEvents.EventsConnection.OnOpen` | farcaster-audio/hooks/useMessagesEvents.ts:325-328 | an open resets the attempt, the refresh flag and the failures |
| `MessagesEvents.EventsConnection.OnError` | farcaster-audio/hooks/useMessagesEvents.ts:347 | an errored socket is told to close |
| `MessagesEvents.EventsConnection.OnClose` | farcaster-audio/hooks/useMessagesEvents.ts:348-353 | only the current socket's close is acted on; what each code leads to is stated in numbers by the `EventReactions` rows below |
| `MessagesEvents.EventsConnection.AbandonSilentSocket` | farcaster-audio/hooks/useMessagesEvents.ts:317-323 | only the current silent socket is dropped and replaced |
| `MessagesEvents.EventsConnection.OnTimer` | farcaster-audio/hooks/useMessagesEvents.ts:217-220 | the timer clears itself and connects |
| `MessagesEvents.EventsConnection.OnForeground` | farcaster-audio/hooks/useMessagesEvents.ts:360-385 | a foreground restarts a given-up machine, otherwise reconnects a stale socket unless stopped or in a rate-limit wait |
| `MessagesEvents.EventsConnection.OnUnmount` | farcaster-audio/hooks/useMessagesEvents.ts:388-394 | cleanup cancels, clears the timer and closes the socket |
| `MessagesEvents.EventsConnection.Deliver` | farcaster-audio/hooks/useMessagesEvents.ts:175-395 | whichever event comes, its handler takes the specified step and leaves the four invariants standing |
| `MessagesEvents.StepKeepsInv` | farcaster-audio/hooks/useMessagesEvents.ts:193-354 | each event keeps the socket, timer, generation and refresh-budget invariants (also lines 358-394) |
| `MessagesEvents.EveryRunKeepsInv` | farcaster-audio/hooks/useMessagesEvents.ts:175-395 | hence every interleaving does |
| `MessagesEvents.NothingLeaks` | farcaster-audio/hooks/useMessagesEvents.ts:193-233 | in every interleaving at most one socket is neither closed nor told to close, and it is the current one; at most one timer is armed; after cleanup there is neither |
| `MessagesEvents.SocketsComeFromTheNewestConnect` | farcaster-audio/hooks/useMessagesEvents.ts:296-315 | in every interleaving a socket is created only by the newest connect while neither cancelled nor stopped, and no generation creates two |
| `MessagesEvents.RateLimitWaitIsHonoured` | farcaster-audio/hooks/useMessagesEvents.ts:379-384 | while a rate-limit wait is armed nothing but its own timer starts a connect; that a rate-limited close arms one is `RateLimitedCloseWaits`, how long it lasts `RateLimitWaitLasts` |
| `EventReactions.RateLimitedCloseWaits` | farcaster-audio/hooks/useMessagesEvents.ts:120-121 | in every interleaving a 4429 close of the current socket leaves a running machine waiting at least 60 s, exactly 60 s if nothing was pending, if and only if no shorter retry was pending; it starts no refresh |
| `EventReactions.RefusedCloseStops` | farcaster-audio/hooks/useMessagesEvents.ts:113-119 | 4403 and 4404 leave the machine stopped with no timer |
| `EventReactions.RejectedTicketIsMintedAgain` | farcaster-audio/hooks/useMessagesEvents.ts:107-108 | a 4401 `ticket_rejected` close starts no refresh and retries after the plain backoff: 1 s doubled up to 30 s |
| `EventReactions.UnauthorizedCloseRefreshesIff` | farcaster-audio/hooks/useMessagesEvents.ts:109-112 | any other 4401 close starts a refresh if and only if it reports expiry or no refresh has landed since the last open; otherwise it is one more failure, of which the fifth stops the machine and an earlier one retries (also lines 235-256) |
| `EventReactions.OtherCloseBacksOff` | farcaster-audio/hooks/useMessagesEvents.ts:122-123 | every other code, and none, retries after the plain backoff |
| `EventReactions.SupersededCloseIsIgnored` | farcaster-audio/hooks/useMessagesEvents.ts:348-353 | the close of a socket that is no longer current changes nothing |
| `EventReactions.RateLimitedMintWaits` | farcaster-audio/hooks/useMessagesEvents.ts:137-138 | a rate-limited ticket of the newest connect waits like a 4429 close |
| `EventReactions.UnavailableMintStops` | farcaster-audio/hooks/useMessagesEvents.ts:133-136 | an unavailable or missing ticket endpoint stops the machine with no timer |
| `EventReactions.UnauthorizedMintRefreshesIff` | farcaster-audio/hooks/useMessagesEvents.ts:131-132 | an unauthorized ticket starts a refresh if and only if none has landed since the last open, and otherwise counts as a failure |
| `EventReactions.OtherMintFailureBacksOff` | farcaster-audio/hooks/useMessagesEvents.ts:128-140 | any other failure to mint retries after the plain backoff |
| `EventReactions.SupersededMintIsIgnored` | farcaster-audio/hooks/useMessagesEvents.ts:307-311 | a mint that fails once a newer connect began, or once cancelled or stopped, ends its connect and nothing more |
| `EventReactions.FlagIsHistory` | farcaster-audio/hooks/useMessagesEvents.ts:244-272 | in every interleaving the flag the code keeps is set exactly when some event started a refresh and none since was an open, a thrown refresh or a restart after giving up |
| `EventReactions.SettledRefreshContinues` | farcaster-audio/hooks/useMessagesEvents.ts:257-272 | a landed refresh retries, one that ended the session stops for good, one that threw counts as a failure and may be tried again; after cleanup none of it happens |
| `EventReactions.TimerStartsAConnect` | farcaster-audio/hooks/useMessagesEvents.ts:217-220 | the timer that fires leaves none armed and starts the next connect, the attempt count and the socket untouched |
| `EventReactions.ConnectNeedsAToken` | farcaster-audio/hooks/useMessagesEvents.ts:302-306 | a connect goes on to minting a ticket if and only if the machine is running and a token is stored |
| `EventReactions.OpenStartsOver` | farcaster-audio/hooks/useMessagesEvents.ts:325-328 | an open forgets the attempts, the failures and the refresh |
| `EventReactions.ErroredSocketIsTold` | farcaster-audio/hooks/useMessagesEvents.ts:347 | an error only tells its socket to close |
| `EventReactions.ForegroundConnectsIff` | farcaster-audio/hooks/useMessagesEvents.ts:360-385 | a foreground starts the next connect if and only if the machine has given up, which it then forgets, or it is running with a stale socket and in no rate-limit wait; else nothing changes |
| `EventReactions.TicketOpensASocketIff` | farcaster-audio/hooks/useMessagesEvents.ts:312-316 | a ticket opens a socket, the old one told to close, if and only if it is the newest connect's and the machine is running |
| `EventReactions.SilentSocketIsReplaced` | farcaster-audio/hooks/useMessagesEvents.ts:317-323 | a silent current socket is told to close and replaced after the plain backoff; a silent older one is left alone |
| `EventReactions.CleanupLeavesNothing` | farcaster-audio/hooks/useMessagesEvents.ts:388-394 | cleanup leaves no timer and no current socket, and the one there was is told to close |
| `EventReactions.RateLimitWaitLasts` | farcaster-audio/hooks/useMessagesEvents.ts:379-384 | over any stretch of any run in which its timer does not fire and the machine neither stops nor is cleaned up, a rate-limit wait stays armed as it is and no connect starts |
| `EventReactions.StoppedUntilRestarted` | farcaster-audio/hooks/useMessagesEvents.ts:223-233 | over any stretch of any run, a stopped machine starts no connect and opens no socket until a foreground finds that it gave up |
| `EventReactions.ShortRetryOutlivesARateLimit` | farcaster-audio/hooks/useMessagesEvents.ts:211-221 | a reachable state in which a 4429 close leaves a retry of one second in place |
| `EventReactions.GivingUpCutsTheWait` | farcaster-audio/hooks/useMessagesEvents.ts:235-242 | a reachable 60 s wait that ends in a new connect without its timer: a fifth failure drops it and a foreground restarts |
| `MessagesEvents.RefreshesAreBounded` | farcaster-audio/hooks/useMessagesEvents.ts:235-272 | between two socket opens at most five refreshes start, plus one for an expiry that finds a refresh done, plus one for a close after stopping; never more than seven |
| `MessagesEvents.OrderlyRunsStayWithinFive` | farcaster-audio/hooks/useMessagesEvents.ts:235-272 | without those two kinds of close, the bound is five throughout |
| `MessagesEvents.RefreshBoundIsTight` | farcaster-audio/hooks/useMessagesEvents.ts:235-272 | with or without each of the two, an interleaving from mount starts exactly five refreshes plus one for each that happened: neither exclusion can be dropped |
| `MessagesEvents.SevenRefreshesHappen` | farcaster-audio/hooks/useMessagesEvents.ts:235-272 | in particular a run in which seven refreshes start |
| `AuthRefresh.AuthSession.constructor` | farcaster-audio/services/authRefresh.ts:9 | a launch finds what storage holds, with no refresh under way; this and every handler below keep the invariants of `Inv` |
| `AuthRefresh.AuthSession.SetAuth` | farcaster-audio/stores/authStore.ts:49-61 | a login replaces tokens and session and starts a new generation |
| `AuthRefresh.AuthSession.ApplyRefresh` | farcaster-audio/stores/authStore.ts:63-73 | an applied refresh replaces tokens and session within the generation |
| `AuthRefresh.AuthSession.Logout` | farcaster-audio/stores/authStore.ts:75-88 | a logout clears both and starts a new generation |
| `AuthRefresh.AuthSession.Hydrate` | farcaster-audio/stores/authStore.ts:98-110 | hydration restores a stored session only when a stored profile is found with it |
| `AuthRefresh.AuthSession.RefreshSession` | farcaster-audio/services/authRefresh.ts:19-25 | a caller joins the refresh under way or starts the only one |
| `AuthRefresh.AuthSession.OnTokens` | farcaster-audio/services/authRefresh.ts:28 | the stored tokens are read |
| `AuthRefresh.AuthSession.OnResume` | farcaster-audio/services/authRefresh.ts:29-42 | nothing stored logs out; otherwise the generation is snapshot and the token posted |
| `AuthRefresh.AuthSession.OnResponse` | farcaster-audio/services/authRefresh.ts:43-61 | a response of another generation changes nothing; otherwise it is applied, ends the session, or leaves it |
| `AuthRefresh.AuthSession.OnFinally` | farcaster-audio/services/authRefresh.ts:21-23 | the slot is freed |
| `AuthRefresh.StepKeepsInv` | farcaster-audio/services/authRefresh.ts:19-62 | each step keeps the single-flight and token invariants |
| `AuthRefresh.EveryRunKeepsInv` | farcaster-audio/services/authRefresh.ts:19-62 | hence every interleaving does |
| `AuthRefresh.AtMostOneRefresh` | farcaster-audio/services/authRefresh.ts:11-25 | in every interleaving at most one refresh is under way and a caller meanwhile changes nothing |
| `AuthRefresh.SpentTokensAreNeverPosted` | farcaster-audio/services/authRefresh.ts:27-47 | in every interleaving the token posted was never spent before, where every success response that carried a new token spends the posted one, applied or discarded |
| `AuthRefresh.AnsweredTokenIsNotPostedAgain` | farcaster-audio/services/authRefresh.ts:27-47 | the same on events: after such a response no later run posts the token that was answered |
| `AuthRefresh.LateResponseChangesNothing` | farcaster-audio/services/authRefresh.ts:41-46 | once a login or logout has come between the step that posts and the response, the response changes neither storage nor the session |
| `AuthRefresh.SessionsEndOnlyConclusively` | farcaster-audio/services/authRefresh.ts:43-61 | a response of another generation leaves the session alone; a session ends only by logout, empty storage or a 401/403 of its own generation |
| `AuthEffects.CurrentResponseIsActedOn` | farcaster-audio/services/authRefresh.ts:43-61 | the other direction, on events: with no login or logout since the token was posted, a 401/403 signs out, a success with tokens stores and signs in with them, and anything else leaves the session for the next try |
| `AuthEffects.ResumingPostsOrSignsOut` | farcaster-audio/services/authRefresh.ts:28-42 | a run that found no token signs out; any other posts the one it found, under the generation of that moment, and leaves the session alone |
| `AuthEffects.CallersShareOneRun` | farcaster-audio/services/authRefresh.ts:19-28 | a caller with no run under way starts exactly one, which reads what storage holds; any other changes nothing; at its end the slot is free |
| `AuthEffects.LoginsAndLogoutsTakeEffect` | farcaster-audio/stores/authStore.ts:49-88 | a login stores and signs in with its token, a logout clears storage and session; each starts a new generation and leaves a run under way alone |
| `AuthEffects.HydrationRestores` | farcaster-audio/stores/authStore.ts:98-110 | a launch signs in with the stored token if and only if a profile is stored with it, within the generation |
| `AuthRefresh.RefreshReplacesItsOwnTokenIff` | farcaster-audio/services/authRefresh.ts:28-46 | an applied refresh replaces the very token it spent if and only if none of the steps from reading storage to taking the generation is a login or logout |
| `AuthRefresh.LoginDuringReadIsOverwritten` | farcaster-audio/services/authRefresh.ts:28-46 | a run in which one did: the new login's token is overwritten |
| `CanonicalJson.SortsEqualIffSame` | farcaster-audio/services/messagingToken.ts:51-60 | two values sort to equal values if and only if they differ only in the order of object keys, at any depth |
| `CanonicalJson.SortingIsIdempotent` | farcaster-audio/services/messagingToken.ts:51-60 | sorting twice is sorting once |
| `CanonicalJson.SortKeysDeepSorts` | farcaster-audio/services/messagingToken.ts:51-60 | every object at every depth of the result enumerates its keys in order, index keys first |
| `CanonicalJson.SortedIsSame` | farcaster-audio/services/messagingToken.ts:51-60 | sorting changes nothing but key order |
| `CanonicalJson.IndexOrderIsNumeric` | farcaster-audio/services/messagingToken.ts:55-59 | the enumeration order of index keys is numeric order |
| `CanonicalJson.NumericKeysAreNotLexicographic` | farcaster-audio/services/messagingToken.ts:46-60 | keys `10` and `9` come out as `9`, `10`, not in sorted-string order |
| `CanonicalJson.SortedByCodeUnitIff` | farcaster-audio/services/messagingToken.ts:46-60 | a rebuilt object enumerates its keys in code-unit order if and only if no two of its keys are ordered otherwise by object enumeration |
| `JsonText.CanonicalTextsEqualIff` | farcaster-audio/services/messagingToken.ts:46-49 | two requests have the same canonical text if and only if they differ only in key order: what a signature over the text pins down; that the text is the request's JSON is `CanonicalTextIsTheRequest` |
| `JsonText.TextDeterminesValue` | farcaster-audio/services/messagingToken.ts:47-49 | `JSON.stringify` without whitespace gives different values different texts; that a reader of JSON gets the value back is `ParseOfStringify` |
| `JsonText.ReadsBack` | farcaster-audio/services/messagingToken.ts:47-49 | a value's text followed by a comma, a closing bracket or nothing determines both the value and what follows; which value that is for a reader of JSON is `ValueIsRead` |
| `JsonText.EscapedReadsBack` | farcaster-audio/services/messagingToken.ts:47-49 | a quoted string, lone surrogates and control characters included, determines the string and what follows the quote |
| `JsonRoundTrip.ParseOfStringify` | farcaster-audio/services/messagingToken.ts:47-49 | a parser of JSON text (RFC 8259 without insignificant whitespace), defined on the text alone, reads every value's text back as that value |
| `JsonRoundTrip.ValueIsRead` | farcaster-audio/services/messagingToken.ts:47-49 | so it does inside a longer text, leaving exactly what follows |
| `JsonRoundTrip.EscapedIsRead` | farcaster-audio/services/messagingToken.ts:47-49 | and so it reads every string, lone surrogates and control characters included |
| `JsonRoundTrip.CanonicalTextIsTheRequest` | farcaster-audio/services/messagingToken.ts:46-49 | the signed text parses to the request with its keys sorted, which is the request up to key order |
| `JsonRoundTrip.CanonicalTextIsCompact` | farcaster-audio/services/messagingToken.ts:46-49 | and it has no whitespace outside strings |
| `JsonRoundTrip.CanonicalTextIsUnicode` | farcaster-audio/services/messagingToken.ts:46-49 | no surrogate stands alone in it, whatever strings the request holds, so that encoding it in UTF-8 before signing loses nothing |
| `JsonRoundTrip.PlainTextIsCopied` | farcaster-audio/services/messagingToken.ts:47-49 | text without quotes, backslashes, control characters and surrogates is copied unescaped |
| `JsonRoundTrip.EscapesAsSpecified` | farcaster-audio/services/messagingToken.ts:47-49 | which escape each other character takes: the seven short ones, `\u` with four lower-case digits for the remaining control characters and lone surrogates, none for a pair (QuoteJSONString of ECMA-262) |
| `JsonKeys.IndexKeyIff` | farcaster-audio/services/messagingToken.ts:55-59 | a key is enumerated among the indices if and only if it is the decimal form of a number below 4294967295 |
| `Base64Url.Base64UrlEncode` | farcaster-audio/services/protocolAuth.ts:42-67 | the index loop writes the specified base64url text of every byte array |
| `Base64Url.DecodesExactlyItsEncoding` | farcaster-audio/services/protocolAuth.ts:42-67 | a text decodes (section 5 of RFC 4648, unpadded, canonical) to given bytes if and only if it is their encoding |
| `Base64Url.EncodedLength` | farcaster-audio/services/protocolAuth.ts:42-67 | the length is exactly that of unpadded base64 |
| `Base64Url.EncodedStaysInAlphabet` | farcaster-audio/services/protocolAuth.ts:39-67 | only letters of the alphabet are written |
| `Base64Url.NoDotInEncoding` | farcaster-audio/services/protocolAuth.ts:39-40 | no encoding contains the token's separator |
| `Base64Url.AlphabetAsWritten` | farcaster-audio/services/protocolAuth.ts:39-40 | the alphabet, spelled out |
| `Base64Url.EncodeSnapPayload` | farcaster-audio/services/snapSigner.ts:61-68 | the encoder by `btoa`, two replacements and a strip writes the same text for every byte array |
| `Base64Url.TokenReadsBackExactly` | farcaster-audio/services/protocolAuth.ts:76-96 | a text splits back into a message and a 65-byte signature if and only if it is the token made from them; an empty message and another signature length make no token |
| `SentryScrub.RedactMnemonicLikeText` | farcaster-audio/utils/sentryScrub.ts:64-100 | the token loop with its open run computes the redaction that judges each maximal run whole |
| `SentryScrub.NoRunSurvives` | farcaster-audio/utils/sentryScrub.ts:64-100 | for every text and every word list the redacted text, split into words again, has no run of six or more listed words |
| `SentryScrub.UnchangedExactlyWithoutRun` | farcaster-audio/utils/sentryScrub.ts:64-100 | a text comes through unchanged if and only if it contains no such run |
| `SentryScrub.RedactionIsIdempotent` | farcaster-audio/utils/sentryScrub.ts:64-100 | redacting twice is redacting once, for every word list |
| `ScrubParts.OnlyPhrasesAreReplaced` | farcaster-audio/utils/sentryScrub.ts:64-100 | the text falls into phrases of six or more listed words, with separators in between and at most one after, and other tokens; the result shows `[redacted]` for each phrase and everything else, closing separators included, as it was and in order |
| `ScrubParts.NoStretchSurvives` | farcaster-audio/utils/sentryScrub.ts:64-100 | in the token sequence of the result no stretch of separators and listed words has six listed words, and a text is changed if and only if it had such a stretch |
| `ScrubParts.CaseDoesNotMatter` | farcaster-audio/utils/sentryScrub.ts:87-88 | a word counts in upper, lower or mixed case alike, if the list has it in lower case |
| `ScrubParts.SeparatorsAsWritten` | farcaster-audio/utils/sentryScrub.ts:28-29 | which characters keep a run going: white space, `,`, `;`, `:`, `.` and digits, and no others |
| `SentryScrub.RunsInPieces` | farcaster-audio/utils/sentryScrub.ts:66-67 | splitting a concatenation of pieces into words and separators again finds the same runs |
| `StableSorting.StableSortIsStable` | farcaster-audio/hooks/mergeDiscoverySpaces.ts:90-101 | the sort gives a sorted permutation that keeps the order of ties |
| `StableSorting.StableSortsAreEqual` | farcaster-audio/hooks/mergeDiscoverySpaces.ts:90-101 | there is only one such list, so the sort's algorithm does not matter |
| `Discovery.MergeIsOneStableSort` | farcaster-audio/hooks/mergeDiscoverySpaces.ts:65-102 | the two-stage sort equals one stable sort of the plain concatenation by (live first, time descending), for all four lists whatever they hold |
| `Discovery.MergeIsOrdered` | farcaster-audio/hooks/mergeDiscoverySpaces.ts:58-64 | the result is a permutation of the inputs, live rooms first, each part newest-first |
| `Discovery.SoonestFirstIff` | farcaster-audio/hooks/mergeDiscoverySpaces.ts:8-11 | the soonest-upcoming room is listed first, as the comment says, if and only if all rooms that are not live have one time |
| `Discovery.LaterRoomComesFirst` | farcaster-audio/hooks/mergeDiscoverySpaces.ts:90-101 | two scheduled rooms at different times come out latest first |
| `Discovery.TimeThatCounts` | farcaster-audio/hooks/mergeDiscoverySpaces.ts:20-49 | which time counts: an active room's start, any other's schedule or else its start, and 0 for what cannot be read |
| `Discovery.ActiveRoomsComeFirst` | farcaster-audio/hooks/mergeDiscoverySpaces.ts:58-64 | every active room of either kind is listed before every other |
| `UniqueItems.UniqueBy` | farcaster-audio/stores/spaceStore.ts:21-29 | the filter with its set keeps the first item of each key |
| `UniqueItems.UniqueIsDistinct` | farcaster-audio/stores/spaceStore.ts:21-29 | what it keeps has distinct keys, comes from the list, and covers every key of the list |
| `UniqueItems.UniqueKeepsFirsts` | farcaster-audio/stores/spaceStore.ts:21-29 | what it keeps are exactly the first items of their keys, in the order of the list |
| `SpaceStore.EachIdHasOneHome` | farcaster-audio/stores/spaceStore.ts:31-93 | after normalization each Farcaster room id appears exactly once if any list has an eligible entry for it, in the first such list of: hosted live, native live, hosted upcoming, native upcoming |
| `SpaceStore.NormalizingIsIdempotent` | farcaster-audio/stores/spaceStore.ts:31-93 | normalizing a normal result at the same instant changes nothing |
| `SpaceEffects.ActiveRoomsAreKept` | farcaster-audio/stores/spaceStore.ts:31-93 | the live list holds exactly the active rooms of the given one, each once, rooms that mirror no Farcaster room included |
| `SpaceEffects.UpcomingRoomsAreKept` | farcaster-audio/stores/spaceStore.ts:31-93 | the scheduled list holds exactly the scheduled rooms whose time has not passed and whose Farcaster room is not live already, each once |
| `SpaceStore.StepKeepsIdsApart` | farcaster-audio/stores/spaceStore.ts:222-247 | each discovery action keeps every room id to at most one entry |
| `SpaceStore.EveryRunKeepsIdsApart` | farcaster-audio/stores/spaceStore.ts:222-272 | hence so does every sequence of actions, at whatever instants |
| `SpaceEffects.AddedRoomComesFirst` | farcaster-audio/stores/spaceStore.ts:226-235 | an added active room is listed first and nothing else under its id is; the other active rooms stay |
| `SpaceEffects.RemovedRoomIsGone` | farcaster-audio/stores/spaceStore.ts:236-239 | a removed room is the only thing that leaves |
| `SpaceEffects.SettersReplaceTheirList` | farcaster-audio/stores/spaceStore.ts:222-247 | every setter normalizes the four lists with just its own replaced |
| `SpaceEffects.ResetEmptiesTheLists` | farcaster-audio/stores/spaceStore.ts:264-271 | a reset leaves the four lists empty |
| `SpaceStore.Store.constructor` | farcaster-audio/stores/spaceStore.ts:163-168 | the four lists start empty |
| `SpaceStore.Store.SetNormalized` | farcaster-audio/stores/spaceStore.ts:31-93 | the four lists rebuilt one from another are the normalization of the given ones |
| `SpaceStore.Store.SetDiscoverySpaces` | farcaster-audio/stores/spaceStore.ts:223 | all four lists are replaced, normalized |
| `SpaceStore.Store.SetActiveLiveSpaces` | farcaster-audio/stores/spaceStore.ts:224-225 | one list is replaced and all four normalized together |
| `SpaceStore.Store.AddActiveLiveSpace` | farcaster-audio/stores/spaceStore.ts:226-235 | the room goes first, replacing its older entry, and all four are normalized |
| `SpaceStore.Store.RemoveActiveLiveSpace` | farcaster-audio/stores/spaceStore.ts:236-239 | the room's entries leave the live list |
| `SpaceStore.Store.SetScheduledSpaces` | farcaster-audio/stores/spaceStore.ts:240-241 | one list is replaced and all four normalized together |
| `SpaceStore.Store.SetFarcasterLiveSpaces` | farcaster-audio/stores/spaceStore.ts:242-243 | likewise |
| `SpaceStore.Store.SetFarcasterScheduledSpaces` | farcaster-audio/stores/spaceStore.ts:244-247 | likewise |
| `SpaceStore.Store.Reset` | farcaster-audio/stores/spaceStore.ts:264-271 | the four lists are empty again |
| `ReplyChain.SelectReplyChain` | farcaster-audio/utils/replyChain.ts:40-64 | the loop returns the casts along the specified path and the cast at the specified depth to continue from |
| `ReplyChain.ContainsHashSomewhere` | farcaster-audio/utils/replyChain.ts:25-33 | the recursive search finds a hash if and only if some position of the tree holds it |
| `ReplyChain.ChainGoesDown` | farcaster-audio/utils/replyChain.ts:12-13 | the chain starts at the root and each cast replies to the one before |
| `ReplyChain.FocusIsShown` | farcaster-audio/utils/replyChain.ts:35-39 | the chain shows the focus whenever the tree holds it, whatever the limit |
| `ReplyChain.LimitIsPassedOnlyForTheFocus` | farcaster-audio/utils/replyChain.ts:50-62 | every cast at or past the limit lies on the way to the focus |
| `ReplyChain.ChainTakesTheReply` | farcaster-audio/utils/replyChain.ts:46-62 | at each level the chain takes the first branch that holds the focus, or without one the first reply |
| `ReplyChain.ChainEndsOnlyAtTheLimit` | farcaster-audio/utils/replyChain.ts:46-62 | it ends only at a cast without replies, or with the limit reached and the focus not below |
| `ReplyChain.ThreeCastsByDefault` | farcaster-audio/utils/replyChain.ts:40-64 | with the default limit three casts are shown, fewer only if there are no more, and without a focus no more than three |
| `ReplyChain.NothingHiddenMeansWholeTree` | farcaster-audio/utils/replyChain.ts:14-18 | without a cast to continue from, every position of the tree is on the chain |
| `ReplyChain.OmittedLieBelow` | farcaster-audio/utils/replyChain.ts:14-18 | otherwise every omitted position lies strictly below the cast to continue from |
| `ReplyChain.HiddenOmitsAReply` | farcaster-audio/utils/replyChain.ts:55-59 | that cast does have a reply that is left out |
| `ReplyChain.NothingOmittedAbove` | farcaster-audio/utils/replyChain.ts:55-59 | and every chain cast above it has a single reply: it is the topmost with one left out |
| `CastTextTokens.TrimTrailingProsePunctuation` | farcaster-audio/utils/castTextTokens.ts:30-53 | the two loops return the specified prefix and terminate |
| `CastTextTokens.TrimmedIsPrefix` | farcaster-audio/utils/castTextTokens.ts:33-52 | the result is a prefix not ending in an unmatched closing bracket; what follows it is unmatched closers and then punctuation only |
| `CastTextTokens.TrimmedWholeIff` | farcaster-audio/utils/castTextTokens.ts:33-52 | a candidate is kept whole if and only if it ends neither in punctuation nor in an unmatched closer |
| `CastTextTokens.TrimmingTwiceIff` | farcaster-audio/utils/castTextTokens.ts:33-52 | trimming the result again trims more if and only if the candidate, its trailing punctuation gone, ends in unmatched closers right after punctuation |
| `CastTextTokens.BaredPunctuationStays` | farcaster-audio/utils/castTextTokens.ts:33-52 | `a.)` is such a candidate: its full stop, bared by the bracket's removal, stays |
| `CastEntities.MatchedCloserStays` | farcaster-audio/utils/castTextTokens.ts:35-50 | a link that opens as many brackets as it closes keeps its last one |
| `CastEntities.ExtraCloserGoes` | farcaster-audio/utils/castTextTokens.ts:35-50 | one closing bracket too many is taken off, of each of the three kinds |
| `CastEntities.TrailingPunctuationGoes` | farcaster-audio/utils/castTextTokens.ts:33-36 | punctuation at the end is taken off, however much there is |
| `CastEntities.PunctuationAsWritten` | farcaster-audio/utils/castTextTokens.ts:23 | which characters are trailing punctuation |
| `CastEntities.BracketsAsWritten` | farcaster-audio/utils/castTextTokens.ts:24-28 | which brackets pair |
| `CastTextTokens.CollectEntities` | farcaster-audio/utils/castTextTokens.ts:120-148 | the collected entities spell out their own ranges, earliest first and the longest first at one start |
| `CastTextTokens.CollectedAreOrdered` | farcaster-audio/utils/castTextTokens.ts:120-148 | so does the specification's collected list, which the next row refers to |
| `CastEntities.CollectedIff` | farcaster-audio/utils/castTextTokens.ts:120-148 | the collected entities are exactly the mentions, each with its name, and the links that keep a safe boundary and a safe address after trimming |
| `CastTextTokens.TokenizeCastText` | farcaster-audio/utils/castTextTokens.ts:150-169 | the segments spell out the text, none is empty, no two texts are adjacent, and the others are the chosen entities in order |
| `CastTextTokens.DroppedIffOverlapsChosen` | farcaster-audio/utils/castTextTokens.ts:155-161 | an entity is dropped if and only if one chosen before it overlaps it |
| `CastTextTokens.ChosenAreApartAndLongest` | farcaster-audio/utils/castTextTokens.ts:147-161 | chosen entities never overlap, and a chosen one is the longest that starts where it does |
| `MessageSearch.FetchUntilHits` | farcaster-audio/hooks/useMessageSearch.ts:51-65 | a fetch returns the hits of the pages it read, from its start to the first page with hits, the end or the tenth page, and the cursor of the next page |
| `MessageSearch.AppendUniqueHits` | farcaster-audio/hooks/useMessageSearch.ts:91-102 | each incoming message not shown yet is appended once, where it first occurs |
| `MessageSearch.EveryRunShowsFirstPages` | farcaster-audio/hooks/useMessageSearch.ts:165-183 | after any sequence of answered, restarted and failed fetches the hits are exactly those of some first pages, deduplicated, and the cursor is the next page |
| `MessageSearch.LoadMoreGoesOn` | farcaster-audio/hooks/useMessageSearch.ts:165-183 | an answered load brings the hits of at least one page more, an expired cursor starts over if that is answered, and a failure changes nothing |
| `MessageSearch.LoadingMoreShowsEveryHit` | farcaster-audio/hooks/useMessageSearch.ts:165-183 | as many answered loads as there are pages left show every hit of the query once and leave no cursor |
| `MessageSearch.FirstLoadShowsFirstPages` | farcaster-audio/hooks/useMessageSearch.ts:143-149 | so does the first load |
| `MessageSearch.EmptyFetchMeansTenEmptyPages` | farcaster-audio/hooks/useMessageSearch.ts:26-30 | a fetch reads ten pages at most, and one without hits leaves a cursor only after ten empty pages in a row |

## Left out

- SendMessage: store resets are not steps of its runs. A send into a known conversation skips the queue; it is a step, and the answer to it is one of the other writes to the store.
- AuthRefresh: reads and writes of token storage are atomic; the guard of `saveTokens` against a missing refresh token is kept. Of a profile only whether one is stored is modelled; `markSignerNotLinked` is left out.
- MessagesEvents: the keepalive interval, the status shown, access errors and message parsing are left out; a silent socket is an environment step. Liveness is not claimed: without a stored token a connect simply ends.
- MessageStore: availability, access errors, realtime status, search seeds and scroll offsets are left out; an absent cursor of a search seed counts as null.
- Messages: message fields that no modelled function reads are left out, and times are integers.
- Base64Url: bytes are integers, so the shifts and masks are divisions and remainders; UTF-8 and hex decoding are not part of this model, tokens start from bytes.
- JsonText: numbers are their decimal renderings, any number text of section 6 of RFC 8259 (a value that is not finite renders as null before it reaches the model), and functions, undefined and `toJSON` are left out. The parser reads text without insignificant whitespace, which is all the client writes.
- CastTextTokens: the two patterns, `hasSafeBoundary` and `safeHref` are parameters, the patterns as any non-empty ranges of the text; `filterHiddenCastUrls` is left out.
- SentryScrub: credential masking, key-based scrubbing and the sensitive-screen counter are left out.
- SnapClient: the response cache, host lists, URL checks and field checks are left out.
- SpaceStore: the fields of the joined room (participants, hand queue, roles, recording) are left out; each would add only a member with a one-line body.
- StableSorting.StableSortIsStable: stands for the built-in sort, of which the model uses only that it is stable.
- MessageSearch: debouncing and request cancellation are left out; the pages of one query do not change while it is paged.
- `shouldAutoMarkRead`, HTTP clients, LiveKit, signing and key handling, screens, navigation and the backend are left out.
