# Verified model of the torrent console's state logic

A Dafny model of the stateful core of a web console for an rTorrent server: how the server publishes numbered
snapshots of its torrents, how browsers follow them by deltas, and the stateful helpers around that core. Each object
that the program updates in place is a class whose methods are proved against a specification; what the program
promises is then proved about the specification, over every input and every run.

`dafny verify dfyconfig.toml` checks the whole project.

## Modules

- **Snapshot synchronisation.** `Torrents` (the store's operations on values), `TorrentLaws` (what they preserve),
  `TorrentStore` (the live store, updated in place), `Deltas` (`diff` and `apply`), `Publisher` (publishing in three separately locked writes, and the
  answers 200, 304, 400 and 409), `PollClient` (the browser's poll loop), `Sync` (server, network and browser as one
  step system), `SyncTheorems` (safety over all runs), `Healing` (catching up, and when it does not happen),
  `OneBehind` (how far a delta reaches), `Staleness` (the fields the browser does not compare).
  In `Sync` everything sent stays on the network for ever and may be taken any number of times, or never, in any order;
  any number of ticks and refetches may be outstanding; a handler may be overtaken by publications between its two
  reads, and a publication may be seen half written.
- **Add requests.** `AddQueue` (queue, handler and dialog slot as a step system), `AddQueueObjects` (the two objects).
- **File tree.** `FileTree` (on values), `FileTreeObjects` (nodes built and rolled up in place), `FileTreeLaws`,
  `FileTreeTheorems`.
- **Login.** `Sessions` (memory, file and restarts as a run), `SessionStore` (the object), `RateLimit`.
- **Names, links and settings.** `Collision`, `Magnet`, `ConfigEditor`.
- **Histories and bars.** `LogRing` (the server's log), `LogPolling` (a browser following it), `LogTab` (the tab filled and
  followed by two racing requests), `RateHistory`, `Bitfield`.

## What the proofs found

- `applyDelta` does not set `hasLoaded`, although its documentation says the first snapshot or delta does. It does not
  matter: a store whose revision is above 0 has loaded (`SyncTheorems.StoreIsSteady`).
- The delta route promises a delta to a client "exactly one behind". That is so in every run whose snapshots all encode
  (`OneBehind.DeltasReachOneStep`). A snapshot that does not encode uses up a revision without being published, and the
  next delta then reaches over it (`OneBehind.ReachesOneStepExactly`, `OneBehind.ATwoStepDeltaIsReached`). No snapshot of
  these types is known to fail to encode, so this is a matter of the code's own error branch.
- Applying a difference does not always rebuild the newer snapshot: `diff` ignores `isOpen`, `isActive`, the size and some
  metadata. It does exactly if that snapshot is in hash order and no row changed in such fields alone
  (`Deltas.ApplyRebuildsExactly`).
- The browser's own comparison ignores those fields too, and the save path, the views, `forceStart` and `throttleRule`
  besides. A row kept for its identity goes on showing the old ones, even after a full snapshot:
  `Staleness.StaleAfterSnapshot` and `Staleness.StaleAfterDelta` say exactly when, `Staleness.AStaleRowIsReached` is a run
  for every row in which the browser is in step and shows a flag that has changed.
- A 304 does not always mean the browser is current: after losing a body it can be left polling from the current
  revision, or holding the ETag of a delta it never applied. `Healing.HealsUnlessStalled` gives the exact condition,
  `Healing.AStallIsReached` is a run from the start of the server that ends in it, and `Healing.LaterPublicationHeals`
  shows the next publication ends it.
- A handler that enqueued before its first await would start a second drain beside the first
  (`AddQueue.ReentrancyBreaksTheQueue`): `draining` is only assigned once `drain()` has returned a promise.
- `buildTree` drops files whose path has no parts, and all but the first file of a path. It loses nothing exactly if
  every file has a path of its own (`FileTreeTheorems.NothingIsLost`); `FileTreeTheorems.TwoOfThreeAreDropped` is a list
  of three files of which one is left.
- `find_key` matches any key that begins with `password_hash`. Setting a hash in a section whose first such line is
  `password_hash_algo = 1` overwrites that line, and removing the hash deletes it (`ConfigEditor.LongerKeyIsLost`). That
  is the only way a line that does not assign the key is lost (`ConfigEditor.OnlyTheKeyIsLost`).
- Removing the hash reads back as one line less, except for an empty file, which gains a line break, and for a file
  without a final line break whose last line becomes an empty one (`ConfigEditor.LinesAfterRemoval`).
- The Log tab is filled by one request and followed by another. They race at the server and on their way back, so entries
  can be lost or listed twice: `LogTab.WholeExactly` gives the exact condition, `LogTab.LateFillLosesADelivery` a run in
  which an entry is gone for good although both first answers saw the same total and the poll missed nothing.
- A refreshed session expiry may be forgotten by a restart (`Sessions.ARefreshIsForgotten`), because refreshes are written
  at most every five minutes. What is forgotten came less than five minutes after the last write
  (`Sessions.ForgottenAtRestart`), and a restart never revives a session (`Sessions.RestartRevivesNothing`).
- The login limiter's cap holds per fixed window: a short stretch may see up to twice the cap less one
  (`RateLimit.TwiceTheCapIsReached`), never more (`RateLimit.AtMostTwiceTheCap`).

## Model

| member | source | states |
|---|---|---|
| SyncTheorems.StoreShowsItsRevision | src/store/torrents.ts:207-244 | in every reachable state, under any interleaving, loss, repetition or reordering, the rows keyed by hash have the compared fields of the snapshot published under the store's revision, and its globals and connection |
| SyncTheorems.StoreIsSteady | src/store/torrents.ts:164-195 | in every reachable state the EMA accumulator's keys are exactly the rows' hashes, smoothing the shown rows again changes nothing, and revision 0 is all an unloaded store can have |
| SyncTheorems.AnswerIsExact | server/src/api.rs:468-545 | whatever is published between the two reads, a 200 is exactly the difference, as `diff` defines it, from `since` to the snapshot read, a 409 is that whole snapshot, a 304 means the client is at it or has received the headers of an answer carrying that very delta (its body may be lost), and a 400 cannot happen |
| SyncTheorems.AnswersAreValid | server/src/api.rs:450-545 | no answer on the network is newer than what is published, and each body is a recorded snapshot or a delta between two consecutive recorded ones |
| Sync.StepKeeps | server/src/poller.rs:221-296 | every micro-step of poller, handler, network and browser keeps the invariant linking the three locks, everything in flight, the tags held and the rows shown |
| Sync.ServerStepInv | server/src/poller.rs:237-262 | between any two of a publication's three writes the cache, the previous snapshot and the delta cache stay recorded snapshots and a delta between consecutive ones, and the published revision never goes back |
| Sync.RecordedExtends | server/src/poller.rs:163-167 | a publication never rewrites an earlier revision and its own is higher than all before |
| Healing.RevisionsStayOrdered | src/ipc/web.ts:165-250 | in every run whose exchanges finish in order, polled revision, store revision and server revision are ordered at every moment |
| Healing.LaneHeals | src/web/WebApp.tsx:112-124 | from any state such a run reaches with the poller at rest, one completed tick with its refetch makes the three revisions equal |
| Healing.HealsUnlessStalled | src/ipc/web.ts:165-250 | for every server with a warm cache and every browser state at all, one undisturbed tick heals if and only if the browser is not in one of the stated 304 cases |
| Healing.LaterPublicationHeals | src/web/WebApp.tsx:105-129 | after any run at all, lossy or reordered, one more publication and one undisturbed tick bring the three revisions together, and the rows agree with the cached snapshot |
| Healing.LostDeltaBodyStalls | src/ipc/web.ts:193-199 | from every state in step that the invariant allows, losing one delta's body leads to a state in which each further tick changes nothing |
| Healing.AStallIsReached | src/ipc/web.ts:193-199 | a run from the start of the server ends in such a state |
| OneBehind.DeltasReachOneStep | server/src/api.rs:465-467 | in every run whose snapshots all encode, a delta answered is one revision ahead of the `since` asked with |
| OneBehind.ReachesOneStepExactly | server/src/poller.rs:221-251 | the delta of a poll reaches one revision if and only if the last revision used was published |
| OneBehind.ATwoStepDeltaIsReached | server/src/poller.rs:222-232 | a run whose delta reaches two |
| Staleness.StaleAfterSnapshot | src/store/torrents.ts:104-142 | after a snapshot a shown row differs from it in the fields the browser does not compare, `isOpen` among them, if and only if a different one was held and retained |
| Staleness.StaleAfterDelta | src/store/torrents.ts:104-142 | after a delta it differs if and only if the one held does and the server did not send the row or the browser retained the one held |
| Staleness.AStaleRowIsReached | crates/rtorrent/src/delta.rs:14-43 | for every row and every change of what neither side compares, a run that ends in step with the old values shown |
| Healing.RoundIsARun | src/ipc/web.ts:165-250 | the undisturbed tick of the healing results is a run of the free system, step by step, from any state |
| Healing.LaneRunIsARun | src/ipc/web.ts:165-250 | every in-order run is a run of the free system with the same server and browser |
| PollClient.PollLoop.StartTick | src/ipc/web.ts:165-193 | what a tick asks for and which ETag it sends |
| PollClient.PollLoop.HeadersArrived | src/ipc/web.ts:173-246 | which ETag is kept or dropped and when the full state is asked for instead |
| PollClient.PollLoop.BodyArrived | src/ipc/web.ts:173-246 | the revision polled from next, the store after the handlers of `WebApp`, and a refetch exactly if the store refused a delta |
| Publisher.AppState.PollOnce | server/src/poller.rs:84-145 | one successful poll ends where the micro-steps lead, and its delta, if any, meets the delta contract |
| Publisher.AppState.Store | server/src/poller.rs:221-263 | nothing changes if the snapshot does not encode; else cache and previous snapshot are the new one and the delta cache is cleared, replaced, or kept if only the delta does not encode |
| Publisher.AppState.SetDisconnected | server/src/poller.rs:267-296 | a failed poll publishes an empty disconnected snapshot with a fresh revision and no delta |
| Deltas.DiffIsDelta | crates/rtorrent/src/delta.rs:49-92 | `diff` meets the delta contract: added are the new hashes, removed the gone ones, updated those in both that its own comparison tells apart; rows come in hash order |
| Deltas.OneDelta | crates/rtorrent/src/delta.rs:78-81 | there is exactly one delta in hash order between two snapshots, and it is the one computed, so the order of the rows and of the hash sets never shows in a body or its ETag |
| Deltas.Compute | crates/rtorrent/src/delta.rs:49-92 | the loops over hash sets, taken in any order and then sorted, compute that delta |
| Deltas.ApplyRebuildsExactly | crates/rtorrent/src/delta.rs:96-128 | applying the difference to the older snapshot gives the newer one if and only if that one is in hash order and no row changed only in fields the comparison ignores |
| Deltas.AppliedRows | crates/rtorrent/src/delta.rs:96-128 | the rows applied are, hash by hash, the newer one or the older one taken for the same |
| TorrentLaws.DiffSameFacts | crates/rtorrent/src/delta.rs:14-43 | rows the server takes for the same agree on everything the browser compares, the tolerance on ratios included |
| TorrentLaws.SameRatioIsEqual | crates/rtorrent/src/delta.rs:27-27 | ratios within the tolerance are equal, because they are per mille |
| TorrentLaws.DeltaAgrees | src/store/torrents.ts:218-244 | a delta is refused without any change unless its base is the store's revision; accepted, it carries rows agreeing with the base to rows agreeing with the delta's snapshot |
| TorrentLaws.SnapshotAgrees | src/store/torrents.ts:207-217 | after a snapshot the rows agree with it, whatever was smoothed, kept for identity or overlaid |
| TorrentLaws.DisplayAgrees | src/store/torrents.ts:133-142 | smoothing, reconciling against any held rows and overlaying change no compared field and no hash |
| TorrentLaws.MergeMembers | src/store/torrents.ts:221-238 | the merged rows are exactly the added ones and the held ones not removed, replaced where updated, each hash once |
| TorrentLaws.SortIsSorted | src/store/torrents.ts:233-235 | the merged rows are ordered by hash |
| TorrentLaws.SmoothRatesTracksRows | src/store/torrents.ts:164-195 | with unique hashes each row is smoothed against the accumulator as it was, and the accumulator ends with exactly the current hashes and the displayed rates |
| TorrentLaws.SmoothIsBetween | src/store/torrents.ts:167-174 | the smoothed rate lies between the raw and the previous one, and a raw rate of zero resets it |
| TorrentLaws.SmoothCloser | src/store/torrents.ts:167-174 | under a constant non-zero raw rate the distance strictly shrinks while it is at least 2 |
| TorrentLaws.SmoothSettles | src/store/torrents.ts:167-174 | after as many repetitions of a constant non-zero rate as it was bytes away, the displayed one is within 1 byte per second of it and moves no more |
| TorrentLaws.UntouchedRowsKeepRates | src/store/torrents.ts:218-244 | a row that an accepted delta neither removes nor updates keeps everything it shows, its status apart |
| TorrentLaws.SteadyStoreIsFixed | src/store/torrents.ts:164-195 | a store showing smoothed rows is a fixed point of smoothing, rates and ETA alike |
| TorrentStore.LiveStore.SmoothRates | src/store/torrents.ts:164-195 | the accumulator updated in place row by row and then pruned, and the rows returned, are those of the specification |
| TorrentStore.LiveStore.ApplyOptimistic | src/store/torrents.ts:79-101 | overrides that took effect, are gone or too old are deleted in place, the rest overlaid |
| TorrentStore.LiveStore.ApplySnapshot | src/store/torrents.ts:207-217 | the store's whole new state after a snapshot |
| TorrentStore.LiveStore.ApplyDelta | src/store/torrents.ts:218-244 | the store's whole new state after a delta, and whether it was accepted |
| TorrentStore.LiveStore.MarkOptimistic | src/store/torrents.ts:245-256 | the overrides set one by one and the rows overlaid at once |
| TorrentStore.LiveStore.ClearOptimistic | src/store/torrents.ts:257-264 | the overrides are dropped, the rows stay as they are |
| AddQueue.QueueKeepsOrder | src/externalOpen.ts:98-122 | in every run handled, in flight and pending together are everything enqueued, in order; at most one handler is in flight; pending work always has a drain or a `finally` to come, whatever fails |
| AddQueue.DialogHandOff | src/store/ui.ts:448-472 | the callback is held exactly while a handler waits for its dialog, that dialog is on screen, and every callback is called exactly once unless it is the one held |
| AddQueue.CallbackLeavesByBeingCalled | src/store/ui.ts:448-472 | from every reachable state with a held callback, closing the dialog calls it once and settles its handler; no other step, `openDialog` included, touches the slot |
| AddQueue.WorkProceeds | src/externalOpen.ts:98-122 | while there is work some step other than a new request is possible and strictly reduces what remains |
| AddQueue.EverythingCanBeHandled | src/externalOpen.ts:113-122 | from every state kept by the queue, everything enqueued can be handled, in order |
| AddQueue.ReentrancyBreaksTheQueue | src/externalOpen.ts:98-107 | a first handler that enqueues before awaiting leads to two handlers in flight exactly if there are two requests or more |
| AddQueue.StepKeeps | src/externalOpen.ts:98-122 | every step of queue, handler and dialog keeps the invariant behind these results |
| AddQueueObjects.UiStore.OpenDialog | src/store/ui.ts:448-453 | refused while a queued request owns the dialog |
| AddQueueObjects.UiStore.OpenExternalAdd | src/store/ui.ts:454-462 | dialog, request and callback are set together |
| AddQueueObjects.OpenRequestQueue.Enqueue | src/externalOpen.ts:98-107 | the queue object after `enqueue`, a drain started exactly if none runs |
| AddQueueObjects.OpenRequestQueue.DispatchSource | src/addQueue.ts:31-45 | the handler opens the dialog or adds at once, as the settings say |
| AddQueueObjects.OpenRequestQueue.SettingsArrived | src/addQueue.ts:24-36 | the handler goes on with the settings loaded, or throws if the load failed |
| AddQueueObjects.OpenRequestQueue.AddReturned | src/addQueue.ts:41-45 | an instant add settles its handler |
| AddQueueObjects.OpenRequestQueue.DrainTurn | src/externalOpen.ts:113-118 | one turn of the loop takes the oldest request or leaves |
| AddQueueObjects.OpenRequestQueue.HandlerSettled | src/externalOpen.ts:116-121 | a settled handler is counted as handled and the next request is taken, unless reporting its error throws |
| AddQueueObjects.OpenRequestQueue.RunFinally | src/externalOpen.ts:101-105 | the `finally` clears the flag and starts over if something arrived |
| AddQueueObjects.OpenRequestQueue.CloseDialog | src/store/ui.ts:463-472 | the slot is emptied before the callback runs and its handler settles |
| FileTreeTheorems.NothingIsLost | src/utils/filetree.ts:24-84 | the leaf indexes under the roots are a permutation of all file indexes if and only if every file has a non-empty path of its own |
| FileTreeTheorems.LeafExactlyIfFirst | src/utils/filetree.ts:34-56 | a file has a leaf if and only if its path is non-empty and no earlier file has the same one |
| FileTreeTheorems.TwoOfThreeAreDropped | src/utils/filetree.ts:34-56 | of three concrete files, at `a/b`, `a//b` and `/`, only the first has a leaf |
| FileTreeTheorems.LeavesAreTheFiles | src/utils/filetree.ts:34-56 | no two siblings share name and kind, each leaf is a file at that file's own path with its figures, and every non-empty path has its leaf |
| FileTreeTheorems.FiguresAreRolledUp | src/utils/filetree.ts:59-84 | at every depth size, size times progress and common priority are those of the leaves below; with distinct paths the roots add up to the total size |
| FileTreeTheorems.FolderStateMeans | src/utils/filetree.ts:86-101 | checked exactly if there are leaves and all are selected, unchecked exactly if none is |
| FileTreeTheorems.TickingAFolderSelectsItsSize | src/utils/filetree.ts:104-106 | at every depth of every built tree, selecting a node's leaves selects exactly the size the node shows |
| FileTreeTheorems.SelectionWeighs | src/utils/filetree.ts:104-106 | the selected size of a set of leaves is the sum of their sizes |
| FileTreeLaws.InsertAddsEntry | src/utils/filetree.ts:34-56 | a file adds exactly its own leaf at its own path, or nothing if the path is empty or taken, and siblings stay unique |
| FileTreeLaws.FirstsAreAll | src/utils/filetree.ts:34-56 | all files get a leaf exactly if every file has a path of its own |
| FileTreeLaws.FolderTally | src/utils/filetree.ts:59-80 | a folder computed from children that match their leaves matches its own: size, weighted progress, priority |
| FileTreeLaws.PriorityTally | src/utils/filetree.ts:75-79 | a folder has priority p >= 0 exactly if all its leaves have it |
| FileTreeLaws.RollUpTallies | src/utils/filetree.ts:59-83 | rolling up makes every node at every depth match its leaves |
| FileTreeObjects.TreeNode.Descend | src/utils/filetree.ts:37-55 | walking a file down the mutable tree, creating what is missing, changes it as the insertion on values does |
| FileTreeObjects.TreeNode.SumStats | src/utils/filetree.ts:59-82 | the figures overwritten in place, children first, are the rolled-up ones |
| FileTreeObjects.TreeNode.Figures | src/utils/filetree.ts:62-79 | a folder's figures by the source's reductions over its children |
| FileTreeObjects.BuildTree | src/utils/filetree.ts:24-84 | the tree built by mutation has the value the theorems are about |
| Collision.ResolvedIsFree | src/utils/complete.ts:123-141 | the resolved name is absent from the siblings and keeps the extension; renaming always succeeds with fewer than 1000 distinct siblings; without renaming it succeeds exactly if the name is free; a free name is kept |
| Collision.ResolveCollision | src/utils/complete.ts:123-141 | the search returns the first of the thousand names that is free, or fails if all are taken |
| Collision.TryNumbered | src/utils/complete.ts:135-139 | the numbered search returns the first free number, or none exactly if all are taken |
| Collision.Pigeonhole | src/utils/complete.ts:135-140 | all names taken means at least a thousand distinct siblings |
| Collision.AttemptsDiffer | src/utils/complete.ts:134-138 | no two of the names tried are equal, even in lower case, for every lower-casing that adds lengths up and leaves a parenthesised number alone |
| Collision.AsciiIsLowering | src/utils/complete.ts:131-137 | lowering ASCII letters meets that contract |
| Collision.AttemptKeepsExtension | src/utils/complete.ts:111-120 | splitting a numbered name gives back the extension of the original |
| Sessions.AcceptedExactlyIfLive | server/src/auth.rs:118-140 | over any run with restarts a token is accepted if and only if it was minted, not revoked since, and last used, as far as this process knows, within the TTL |
| Sessions.FileTrailsMemory | server/src/auth.rs:118-187 | every session in memory is in the file with an expiry no later, and a live one in the file is live in memory |
| Sessions.RestartRevivesNothing | server/src/auth.rs:83-104 | a restart accepts nothing that was not accepted before it, and exactly the unrevoked sessions whose saved use is within the TTL |
| Sessions.RevokedStaysRevoked | server/src/auth.rs:143-157 | a revoked token is never accepted again, whatever follows, restarts included |
| Sessions.UnsavedUsesAreRecent | server/src/auth.rs:123-132 | over any run each use the file does not know of came less than five minutes, on the monotonic clock, after this process's last write |
| Sessions.ForgottenAtRestart | server/src/auth.rs:83-132 | a restart signs a live session out if and only if its saved use is beyond the TTL, and the use it lost was that recent |
| Sessions.ARefreshIsForgotten | server/src/auth.rs:83-132 | a run in which that happens, for every start time and token |
| Sessions.StepKeeps | server/src/auth.rs:83-187 | every event keeps memory and file matching what was minted, used, saved and revoked |
| SessionStore.Store.Create | server/src/auth.rs:107-115 | the table and the file after minting |
| SessionStore.Store.Validate | server/src/auth.rs:118-140 | the verdict, the refreshed or dropped entry, and the throttled write |
| SessionStore.Store.Revoke | server/src/auth.rs:143-148 | one entry dropped and written, nothing if absent |
| SessionStore.Store.RevokeAll | server/src/auth.rs:151-157 | all entries dropped and written, nothing if empty |
| SessionStore.Store.Persist | server/src/auth.rs:167-187 | the file becomes the table |
| RateLimit.RateLimiter.Allow | server/src/auth.rs:198-207 | one address's entry and verdict; other addresses are untouched |
| RateLimit.CapPerWindow | server/src/auth.rs:192-208 | of all attempts that fall into one window exactly the first five, or all if fewer, are allowed |
| RateLimit.AtMostTwiceTheCap | server/src/auth.rs:192-208 | in any stretch no longer than the window an address gets at most twice the cap less one, whatever came before |
| RateLimit.RefusedOnlyAfterTheCap | server/src/auth.rs:192-208 | a refused address made the full number of attempts within the window just before |
| RateLimit.TwiceTheCapIsReached | server/src/auth.rs:192-208 | the bound is reached |
| Magnet.DecodeInvertsEncode | crates/gpui/src/add_source.rs:69-99 | decoding inverts encoding on every byte string |
| Magnet.HashRoundTrip | crates/gpui/src/add_source.rs:32-41 | the hash read from a copied magnet is the hash it was built from, for every non-empty alphanumeric hash and every name |
| Magnet.NameRoundTrip | crates/gpui/src/add_source.rs:48-62 | the name read back is the original, and none exactly if that is blank |
| Magnet.PercentEncode | server/src/cmd.rs:441-452 | the loop builds the specified encoding |
| Magnet.PercentDecode | crates/gpui/src/add_source.rs:69-99 | the index loop builds the specified decoding, malformed escapes and plus signs included |
| Magnet.BuildMagnet | server/src/cmd.rs:422-432 | the URI of the round trips |
| Magnet.ReadDisplayName | crates/gpui/src/add_source.rs:48-62 | the loop over the fields returns the first non-blank `dn` |
| LogPolling.FollowsWithoutRepeats | src/ipc/web.ts:369-392 | for any interleaving of appends and polls, failed ones included and however late the answers, the delivered entries are the history from where the first answer set the cursor, in order and without repeats, missing exactly the entries that had left the ring when the answer that passed them was read |
| LogPolling.LogPoll.FetchLog | src/ipc/web.ts:130-137 | asking the log object from the cursor, or failing, is the poll's read step, and the answer is the one the step records |
| LogPolling.LogPoll.Answered | src/ipc/web.ts:379-386 | handling that answer is the poll's arrival step: the first only sets the cursor, each later one is appended to the tab entry by entry |
| LogPolling.LogStore.Append | src/store/log.ts:23-24 | an entry goes to the end and the list keeps its last 1000 |
| LogPolling.LogStore.Hydrate | src/store/log.ts:22-22 | the list is replaced by the last 1000 of the fill |
| LogTab.Page.GetLog | src/ipc/web.ts:71-75 | asking the log object from 0, or failing, is the fill's read step |
| LogTab.Page.GotLog | src/web/WebApp.tsx:97-97 | hydrating the store with that answer is the fill's arrival step |
| LogTab.Page.ServerLogs | server/src/state.rs:213-225 | an entry logged by the log object is the append step |
| LogTab.Page.Polls | src/ipc/web.ts:376-380 | a poll's request, up to its answer, is the read step |
| LogTab.Page.Polled | src/ipc/web.ts:379-386 | handling its answer is the arrival step |
| LogTab.TabIsWholeExactly | src/web/WebApp.tsx:97-131 | in every run, once both requests have answered, the tab lists log entries under their numbers, and it is everything from the fill's first entry to the cursor, up to its cap, if and only if the poll went on where the fill ends, skipping just what it holds, or a thousand entries handed on without a miss have pushed that place out |
| LogTab.EarlyFillIsWhole | src/web/WebApp.tsx:97-131 | equal totals, a fill that lands before the first delivery and no miss make the tab the log from the fill's first entry to the cursor |
| LogTab.LateFillLosesADelivery | src/store/log.ts:20-25 | a run with equal totals and no miss after which a delivered entry is not listed |
| LogRing.EventLog.Log | server/src/state.rs:213-225 | the ring after an append is the newest 500 of all entries ever logged |
| LogRing.EventLog.LogSince | server/src/state.rs:230-239 | the entries from `after` on that are still held, and the total |
| RateHistory.History.Record | server/src/history.rs:37-62 | after any sequence of calls the buffer is the longest suffix of the accepted samples within both bounds |
| RateHistory.WindowIsLongest | server/src/history.rs:37-62 | no suffix meeting both bounds is longer than the one kept, so it is the only one |
| RateHistory.AcceptedAreRunningMaxima | server/src/history.rs:38-42 | a call is accepted exactly if its time is beyond those of all calls before, ignored ones included |
| RateHistory.History.Trim | server/src/history.rs:54-62 | dropping from the front by saturated age leaves the longest suffix within the window |
| Bitfield.BucketsCountEveryPieceOnce | src/utils/bitfield.ts:45-66 | with no more buckets than pieces the buckets' done counts add up to the number of pieces present |
| Bitfield.SlicesMeet | src/utils/bitfield.ts:53-56 | each such bucket's slice is non-empty and ends where the next begins |
| Bitfield.NarrowBucketsShowEveryPiece | src/utils/bitfield.ts:53-63 | with more buckets than pieces each bucket shows exactly one piece and every piece is shown |
| Bitfield.FractionInUnit | src/utils/bitfield.ts:57-63 | fractions stay within 0 and 1, exact or rounded to any floating-point formats |
| Bitfield.BucketFractions | src/utils/bitfield.ts:45-66 | the array filled is the fractions of the theorems, rounded when divided and again when stored, and zeros if there is nothing to show |
| Bitfield.BucketAverages | src/utils/bitfield.ts:85-109 | the array of averages, rounded when divided and again when stored, with the largest of them before they are stored, 0 if there are none |
| Bitfield.PeakOfStoredBars | src/utils/bitfield.ts:105-106 | no stored bar is above that maximum once it is rounded as they are, and one is at it |
| Bitfield.CountPieces | src/utils/bitfield.ts:33-37 | the number of positions whose bit is set |
| Bitfield.DistributedCopies | src/utils/bitfield.ts:121-133 | the loops compute the rarest count plus the share above it over the pieces known |
| Bitfield.CopiesRange | src/utils/bitfield.ts:121-133 | at least the smallest count and less than one more |
| Bitfield.CopiesMonotone | src/utils/bitfield.ts:121-133 | raising any counts never lowers it |
| Bitfield.CopiesShift | src/utils/bitfield.ts:121-133 | raising every count by one raises it by exactly one |
| ConfigEditor.SetPasswordHashInToml | server/src/settings.rs:490-516 | the edited lines joined again with the original's trailing-newline habit |
| ConfigEditor.LinesAfterSet | server/src/settings.rs:490-537 | the lines set in a text are the lines read back from it, and it keeps its last line's ending |
| ConfigEditor.LastWriteWins | server/src/settings.rs:490-516 | setting one hash and then another equals setting the second |
| ConfigEditor.InsertThenRemove | server/src/settings.rs:495-508 | setting a hash in a section without the key and removing it restores the text exactly |
| ConfigEditor.WrittenLineIsFound | server/src/settings.rs:520-528 | after a set the search finds the header where it was or was added, and the line just written |
| ConfigEditor.OthersSurvive | server/src/settings.rs:483-516 | without the line written, the lines read back are those before, by position: all of them if the key is inserted, with an empty line and a header behind them if the section is new, all but the one replaced if a line is found |
| ConfigEditor.OnlyTheKeyIsLost | server/src/settings.rs:490-528 | for a set or a removal in a section with a line found, nothing but an assignment of the key is lost if and only if that line is one |
| ConfigEditor.LinesAfterRemoval | server/src/settings.rs:495-502 | the lines read back after a removal are the edited ones if and only if the text is not empty and does not come to end in an unfinished empty line |
| ConfigEditor.LongerKeyIsLost | server/src/settings.rs:520-528 | a concrete section whose `password_hash_algo` line a set overwrites and a removal deletes |

## Left out

- Agreement of rows covers the fields `sameTorrent` compares other than status, rates and ETA: size, save path, views and the other uncompared fields may keep an older value when a row is reused, and the optimistic overlay is modelled only as steps that touch status.
- SyncTheorems.AnswerIsExact: this and the other results on deltas take hashes to be unique within a snapshot, and ratios to be per-mille quotients without rounding, as `derive::ratio` makes them; the divisions of neighbouring per-mille values differ by far more than the tolerance in 64-bit floats too.
- One server lifetime: revisions restart at 0 in a new process. Revisions are unbounded, without the wrap of a 64-bit counter.
- Publisher.AppState.SetDisconnected: does not model a disconnected snapshot that fails to encode, which the source would publish with an empty body.
- ETags are taken as injective, except that all cold answers share one. JSON encoding, HTTP, sign-in redirects (401), aborted requests, idle parking, wake-ups, timers and backoff are not modelled: scheduling is free.
- PollClient.PollLoop.BodyArrived: the poll loop always has a delta handler, as `WebApp` registers one; the extra full fetch for a page without delta handlers is not modelled.
- TorrentLaws.SmoothIsBetween: rates are integers and the EMA is the exact rational rounded half up; floating-point error is not modelled.
- TorrentLaws.SortIsSorted: hashes are ordered by code point, which is what `localeCompare` gives on the upper-case hexadecimal hashes of rTorrent.
- AddQueue.QueueKeepsOrder: assumes the handler does not enqueue before its first await, as `handleSource` does not; `AddQueue.ReentrancyBreaksTheQueue` shows what happens otherwise.
- AddQueue.EverythingCanBeHandled: says a run to the end exists from every state, not that the user ever closes the dialog.
- Context menus, column menus and the remove-with-data flag of the dialog store, and the request's id: they play no part in the hand-off.
- FileTreeObjects.TreeNode.Descend: the loop over the parts of a path is written as a recursion on the node it moves to. Progress is an exact rational.
- Collision.AttemptsDiffer: `toLowerCase` is any function meeting `Collision.IsLowering`, which Unicode's rules do; it is not defined further.
- Sessions.AcceptedExactlyIfLive: wall clock and monotonic clock never run backwards, file writes succeed, tokens never repeat and their digests are injective; a store without a file is not modelled.
- RateLimit.RateLimiter.Allow: attempt counts are unbounded, without the overflow of a 32-bit counter.
- Magnet.NameRoundTrip: text is its UTF-8 bytes; the lossy conversion at the end of decoding is the identity on the valid UTF-8 that encoding starts from.
- LogRing.EventLog.Log: the entry's time stamp and level are part of the entry logged.
- LogTab.TabIsWholeExactly: a fill that fails leaves the tab with what the poll hands on; the condition is stated for fills that succeed. A page that is left and opened again starts a new run.
- Bitfield.BucketFractions: floating-point rounding is any monotone function that keeps 0 and 1; the slice bounds are computed exactly, as 64-bit floats do for fewer than 2^40 pieces times buckets. Decoding the hexadecimal bitfield is left out.
- Bitfield.CopiesRange: the copy count is an exact rational.
- ConfigEditor.InsertThenRemove: for texts without carriage returns; the editor turns CRLF line ends into LF.
- ConfigEditor.LastWriteWins: for hashes without line breaks, and texts none of whose lines still ends in a carriage return once read.
- Config precedence, argument extraction, column preferences, sidebar counts, pane layout, the queue scheduler, the move journal, disk and daemon control, password hashing and all rendering: outside this model, or members too easy to add anything.
