# LociTerm protocols

A Dafny model of the parts of LociTerm whose correctness depends on the order of
events, with proofs about every run. `dafny verify dfyconfig.toml` checks all of it.

LociTerm keeps shells in tmux sessions and shows them in a browser. A Go server
owns one tmux attach client per session id, pumps its pty through a WebSocket and
stores workspaces and sessions in SQLite; the browser keeps its own copy of those
lists, tracks background output and reconnects lost sockets.

| module | what it models | source |
|---|---|---|
| `TmuxProtocol` | attach, detach, resize, kill and shutdown as a state machine over the session map, the resize cache, the attach clients and the tmux server | `internal/tmux/manager.go`, `internal/tmux/session.go` |
| `TmuxManager` | `Session` and `Manager` as classes, each method proved to take its step of `TmuxProtocol` | the same |
| `Handlers`, `HandlerRuns` | any number of WebSocket handlers, three goroutines each, over one manager; what they serve until they end | `internal/ws/handler.go` |
| `ClientState` | the browser store: one commit per `set`, one step per event of the page | `frontend/src/stores/appStore.ts` |
| `Tracking`, `Bursts`, `LateTimeouts` | invariants of timers and toasts; the online tracker against an offline split of the same history, and what late timeouts do to it | the same |
| `Unread`, `Foreground` | what a deletion leaves behind, and when the session that is shown is unread; that output which was seen lights no badge | the same |
| `AppStore` | the store as a class, each method proved to take its step of `ClientState` | the same |
| `Tables`, `Store` | the two tables and their statements; `SqliteStore` as a class; workspace deletion | `internal/store/sqlite.go`, `internal/api/workspace.go` |
| `ClientCache`, `ClientRuns`, `ClientChoices` | the browser's lists as a cache of the tables, the active selection, and what each operation shows | `appStore.ts` against `sqlite.go` |
| `Reconnect`, `Terminal` | ticket request, socket, reconnect timer and backoff; the instance as a class | `frontend/src/hooks/useTerminal.ts` |
| `Auth` | login sessions and single-use tickets | `internal/server/auth.go`, `internal/server/server.go` |
| `Uploads`, `UploadNames` | concurrent uploads; the file names written out | `internal/api/upload.go` |
| `Prelude`, `Model`, `Text` | sequences, rows, filters, numerals | |

The pattern is the same throughout. A specification function `Next` says what one
atomic step does, methods of a class do that step in place and ensure exactly the
state that `Next` gives, and lemmas prove what `Next` keeps over every run. A
critical section under `m.mu`, a synchronous JavaScript callback and an SQL
statement are one step each, and so are the two statements of a create; `KillSession`
is two, because it unlocks before it runs `kill-session`.

## What the code does not keep

Plain claims that are false of the code. Each comes with a run, or with steps from any
ordinary state, that break it, and with the exact condition under which the code does
keep it.

- The size cache can be wrong, and a resize then lost: `Attach` recreates a lost
  session without clearing `lastSize`, and `KillSession` runs `kill-session` after
  unlocking, so that a resize may come between. The cache is right at every point
  exactly in the runs in which no session ends while its size is cached
  (`TmuxProtocol.CoherentRuns`); no resize is lost exactly in the runs without a stale
  skip (`TmuxProtocol.DedupRefinesNaive`). Runs that break it:
  `TmuxProtocol.RecreatedSessionKeepsStaleSize`, `TmuxProtocol.ResizeDuringKillKeepsStaleSize`.
- Two ticket requests can be in flight: the guard of `connectWebSocket` looks only at
  the socket held, and not at CLOSING. There is one connection at a time exactly in the
  runs without a second dial (`Reconnect.OneConnection`). Run that breaks it:
  `Reconnect.ClosingSocketDoublesRequests`.
- A disposed terminal can dial: a ticket that arrives, or a timer that runs, only asks whether
  the session id has an instance, not whether it is this one. It does so exactly while its id is
  back (`Reconnect.DisposedStep`, `Reconnect.DisposedStaysQuiet`). Run that breaks it:
  `Reconnect.ReturnedIdRevivesDisposed`.
- `deleteSession` and `renameSession` update only the active workspace's list
  (`ClientCache.DeleteSessionCoherent`, `ClientCache.RenameSessionCoherent`). The cache is right
  at every point exactly in the runs that use them on no session of another loaded list, but
  for renames without effect (`ClientRuns.CacheCoherence`). Runs that break it:
  `ClientRuns.DeleteElsewhere`, `ClientRuns.RenameElsewhere`.
- `createSession` and `setActiveSession` assume the active workspace
  (`ClientCache.CreateSessionSelected`, `ClientCache.SetActiveSessionSelected`,
  `ClientRuns.ActiveSelection`). Runs that break it: `ClientRuns.CreateElsewhere`,
  `ClientRuns.PickElsewhere`. The page itself deletes,
  creates and picks in the active workspace only
  (`frontend/src/components/Terminal/TabBar.tsx:21-123`, and
  `frontend/src/components/Toast/ToastContainer.tsx:38-42` switches first), and never calls
  `renameSession`.
- The session that is shown may be unread: a burst of it may end while the page is
  hidden, and a deletion promotes another session without clearing its flag. It is never
  unread exactly in the runs without such a step (`Unread.ActiveReadRuns`). Runs that break
  it: `Unread.HiddenPageExposes`, `Unread.DeletionExposes`. The page clears the flag
  when it becomes visible again (`frontend/src/App.tsx:113-118`).
- A deleted session may keep its badge and toasts: `deleteSession` returns early when no
  workspace is active, and `deleteWorkspace` forgets only the sessions of a list it has
  loaded (`Unread.DeletedSessionIsForgotten`, `Unread.DeletedWorkspaceIsForgotten`). Runs that
  break it: `Unread.DeletionLeavesBadge`, `Unread.WorkspaceDeletionLeavesBadge`.
- A late timeout joins two bursts: the tracker follows the split exactly in the runs in
  which the session's own timeout is never late (`Bursts.FollowsRuns`), and when no
  burst is open what it has reported is right exactly in those (`LateTimeouts.ReportsAreExact`). Run that breaks it:
  `LateTimeouts.LateTimeoutJoinsBursts`.
- Two creates that run side by side can draw one `sort_order`, because the maximum is read
  by a statement of its own. It stays distinct exactly if the next number is not taken
  meanwhile (`Tables.StaleOrderDistinct`, `Tables.StaleWorkspaceOrderDistinct`). Steps that
  break it: `Tables.RacedCreates`, `Tables.RacedWorkspaceCreates`.
- Deleting a workspace may kill other sessions than the cascade removes, because the listing
  comes first and its failure is ignored (`Store.WorkspaceDeletionIsExact`). Steps that break
  it: `Store.CreatedBetweenSurvives`, `Store.FailedListingKillsNothing`.
- `Detach` trusts the id it is given: a live session handed back under another id
  would stay in its slot, closed (`TmuxProtocol.OwnedStep`). Run that breaks it:
  `TmuxProtocol.MisfiledDetachLosesOwnership`. The handler always
  passes the id it attached with, so in `Handlers` ownership needs no condition.

The comment at `internal/api/workspace.go:82` says that sessions are killed before
the cascade; the code kills them after it, and the model follows the code.

## Model

| member | source | states |
|---|---|---|
| `TmuxProtocol.OwnedStep` | internal/tmux/manager.go:85-251 | A step keeps ownership (the clients that are not closed are exactly the values of the session map, each filed under its own id) if and only if it is not a `Detach` of a live client under an id that is not its own |
| `TmuxProtocol.MisfiledDetachLosesOwnership` | internal/tmux/manager.go:123-138 | Counterexample: a run from a fresh manager, one attach and one detach under another id, that ends without ownership |
| `TmuxProtocol.OwnershipAlways` | internal/tmux/manager.go:75-138 | Ownership, and "closed once, pty closed with it", after every step of every interleaving of attaches, detaches, resizes, kills and shutdowns |
| `TmuxProtocol.ReapedStep` | internal/tmux/session.go:59-91 | Every step keeps: the close body has run exactly once for a closed client and never for an open one, and a closed client has its pty closed |
| `TmuxProtocol.PtyStep` | internal/tmux/manager.go:85-138 | The pty of a client is open after a step exactly if the step started this client, or it was open and the step was neither its `ClosePTMX` nor one that closes its client |
| `TmuxProtocol.ClosedStep` | internal/tmux/session.go:59-73 | A client is closed after a step exactly if it was, or the step was a newer attach in its slot, its detach, a kill of its slot or a shutdown; one just started is not |
| `TmuxProtocol.PtyIsOpenSinceAttach` | internal/tmux/session.go:29-41 | In every run from a fresh manager a pty is open exactly from the attach that started its client to the first step that closes it |
| `TmuxProtocol.StaleDetachIsInvisible` | internal/tmux/manager.go:117-138 | A `Detach` whose handle is no longer in the slot changes nothing at all |
| `TmuxProtocol.StaleDetachesCanBeErased` | internal/tmux/manager.go:117-138 | Erasing every stale `Detach` from any run leads to the same map, clients, cached sizes and tmux sessions |
| `TmuxProtocol.HoldsStep` | internal/tmux/manager.go:110-138 | After a step the slot of an id holds a handle exactly if the step attached it, or it held it and the step was no newer attach, owner detach, kill or shutdown |
| `TmuxProtocol.SlotHoldsLatestAttach` | internal/tmux/manager.go:105-138 | In every run from a fresh manager the slot holds exactly the latest successful attach that has not been replaced, detached by its owner, killed or shut down |
| `TmuxProtocol.WindowStep` | internal/tmux/manager.go:85-103 | A tmux session of an id exists after a step exactly if the step created it, or it existed and the step was not its `kill-session` or the exit of its shell |
| `TmuxProtocol.WindowSizeIsLatest` | internal/tmux/manager.go:152-175 | Over any run the size of a live session is that of the latest step that created or resized it, and the session has not ended since; or nothing has touched it and it is the size it had at the start |
| `TmuxProtocol.SessionLivesUntilEnded` | internal/tmux/manager.go:177-194 | Over any run a tmux session is alive exactly if it was there or was created at some point and has not been killed and its shell has not exited since: attach, detach, resize and shutdown never end it |
| `TmuxProtocol.RecreatedMeansLost` | internal/tmux/manager.go:66-98 | `Attach` reports `Recreated` exactly when no session was created since the last kill or shell exit |
| `TmuxProtocol.ResizesAreDeduplicated` | internal/tmux/manager.go:152-175 | Between two kills of an id the successful `resize-window` commands are the non-failing requests with consecutive repeats removed, and the cache holds the last of them, so a failed resize is never cached |
| `TmuxProtocol.CoherentStep` | internal/tmux/manager.go:152-194 | A step keeps "a cached size is the real window size" if and only if it does not end a tmux session whose size is cached |
| `TmuxProtocol.CoherentRuns` | internal/tmux/manager.go:152-194 | The cache is right at every point of a run if and only if no session ends while its size is cached |
| `TmuxProtocol.DedupRefinesNaive` | internal/tmux/manager.go:152-175 | From any state, windows, slots and clients equal those of the manager that never skips a resize at every point of a run if and only if the run has no stale skip: a resize that would work, skipped although the window does not have the size |
| `TmuxProtocol.NoCachedEndRefines` | internal/tmux/manager.go:152-194 | They are equal in particular when no session ends while its size is cached |
| `TmuxProtocol.AtomicKillsRefine` | internal/tmux/manager.go:181-194 | When sessions die only by a `kill-session` that follows its locked part at once, the cache is right and the two managers are equal |
| `TmuxProtocol.RecreatedSessionKeepsStaleSize` | internal/tmux/manager.go:92-98 | Counterexample with a stale skip: after a shell exit and a recreating `Attach` the skipped resize leaves the new session at its default size |
| `TmuxProtocol.ResizeDuringKillKeepsStaleSize` | internal/tmux/manager.go:181-194 | Counterexample without a shell exit: a resize between the two halves of a kill is cached again, and the next session keeps its default size |
| `TmuxManager.Session.constructor` | internal/tmux/session.go:20-42 | A new attach client is open and has never been reaped |
| `TmuxManager.Session.Close` | internal/tmux/session.go:59-73 | Idempotent close: closes, reaps once, does nothing on a closed session |
| `TmuxManager.Session.ClosePTMX` | internal/tmux/session.go:82-91 | Closes only the pty and leaves `closed` and the process; does nothing on a closed session |
| `TmuxManager.Manager.constructor` | internal/tmux/manager.go:38-52 | A new manager has no sessions, no cached sizes and no clients, whatever tmux sessions exist |
| `TmuxManager.Manager.Attach` | internal/tmux/manager.go:85-115 | In place: exactly the `Attach` step of the protocol, with success, `Recreated` and the returned session as the protocol defines them, on its failure paths too |
| `TmuxManager.Manager.Detach` | internal/tmux/manager.go:123-138 | In place: exactly the compare-and-close step, for a nil, current or stale session |
| `TmuxManager.Manager.Resize` | internal/tmux/manager.go:152-175 | In place: exactly the deduplicating step; returns no error exactly if the size is cached or the command works |
| `TmuxManager.Manager.KillSession` | internal/tmux/manager.go:181-194 | In place: the locked step followed by `kill-session` |
| `TmuxManager.Manager.Shutdown` | internal/tmux/manager.go:243-251 | The loop, in whatever order it visits the map, closes exactly the clients in the slots and empties the map |
| `Handlers.HandleOkAct` | internal/ws/handler.go:78-91 | Every act keeps: a running handler holds a client of its own id, and one that is past its `Detach` has a closed client |
| `Handlers.PumpsOkAct` | internal/ws/handler.go:111-158 | Every act keeps: pumps run only after the `attached` message, the writer lock is held by the pump that writes, and the main goroutine leaves a running handler only after `done` was closed |
| `Handlers.OnceOkAct` | internal/ws/handler.go:98-109 | Every act keeps: `done` closed once at most, one pump in the `once` body at most, and after the body connection and pty closed |
| `Handlers.HandedOutAct` | internal/ws/handler.go:78-87 | Every act keeps: each client was handed to exactly one handler |
| `Handlers.InvStep` | internal/ws/handler.go:54-159 | One step of any goroutine of any handler, an admin call or an event of the environment keeps the whole invariant |
| `Handlers.InvAlways` | internal/ws/handler.go:54-159 | The invariant holds in every reachable state of any number of handlers |
| `Handlers.Safety` | internal/ws/handler.go:93-109 | In every interleaving: one live attach client per id, `done` closed at most once, the pumps never write to the socket together, and after the `once` body connection and pty are closed whoever closed the session before |
| `Handlers.Conservation` | internal/ws/handler.go:78-91 | When all handlers have returned the session map is empty and every client ever started has run its close body exactly once, early returns and takeovers included |
| `Handlers.RankDrops` | internal/ws/handler.go:93-158 | After the `once` body every act of the handler lowers a measure |
| `Handlers.StepIsPaid` | internal/ws/handler.go:93-158 | After the `once` body a step anywhere in the system lowers the measure of a handler by one if it is its own and never raises it |
| `Handlers.ShutdownIsBounded` | internal/ws/handler.go:93-158 | From the end of the `once` body a handler takes at most that many more steps in any run, whatever others do |
| `Handlers.NothingStaysBlocked` | internal/ws/handler.go:93-158 | After the `once` body the main goroutine has returned or can take a step of its own, and each pump has returned, can take a step of its own, or waits for a socket write of the other pump that can return; the measure is zero exactly when all three have returned |
| `Handlers.ShutdownBodyNeverBlocks` | internal/ws/handler.go:98-109 | A pump that left its loop enters the body, leaves, or waits for a body that always makes its next step and ends after the third |
| `Handlers.ClosedClientEndsItsHandler` | internal/ws/handler.go:105-124 | While the pty pump of a closed client is in its loop, each act of its own brings it nearer to the end of the loop, and it waits for nothing but a socket write of the other pump that can return |
| `Handlers.ClosedPumpIsBounded` | internal/ws/handler.go:105-124 | From the moment a newer attach, a kill or the server shutdown closes the client of a running handler, its pty pump takes at most seven more steps in any run, and is out of its loop after three |
| `Handlers.HandlersNeverEndSessions` | internal/ws/handler.go:54-159 | No step of any handler ends a tmux session; only admin kills and shell exits do |
| `HandlerRuns.EndsAreOpen` | internal/ws/handler.go:93-124 | In every reachable state the pty of a handler is open exactly while nobody has closed its client and its `once` body is not over, its socket is open exactly until that body or the handler closes it, and a pump that reads such a pty can receive data |
| `HandlerRuns.WindowChanges` | internal/ws/handler.go:141-145 | A step of the system changes the window of an id exactly if it is an attach or admin create that makes the session, a resize frame with positive dimensions that is read by a handler of that id, not skipped by the cache and not refused, or the end of the session |
| `HandlerRuns.CacheChanges` | internal/ws/handler.go:141-145 | The size cache of an id changes by exactly such a frame, which enters its size, and by the locked part of a kill |
| `HandlerRuns.SizeIsLatestGiven` | internal/ws/handler.go:141-145 | In every run from boot the size of a live tmux session is that of the latest of: the attach that made it, with 120x40, the admin create that made it, and a resize frame that reached it |
| `HandlerRuns.ResizeReachesTmux` | internal/ws/handler.go:128-150 | From any state with an open socket and a reading pump a resize frame can arrive and be read, and then the tmux session has its size, unless the cache already holds it |
| `HandlerRuns.NothingIsLost` | internal/ws/handler.go:111-158 | In every run each chunk read from the pty is written to the socket before the next is read, each ping is answered once, each input frame reaches the pty once, and every frame that arrived has been read or waits |
| `HandlerRuns.MainWaits` | internal/ws/handler.go:78-96 | The goroutine of the handler greets exactly after a successful attach, and waits exactly from a delivered greeting until `done` is closed |
| `HandlerRuns.PumpsUntilFailure` | internal/ws/handler.go:111-158 | In every run a pump is in its loop exactly from the delivered greeting to the first read or write of its own that fails |
| `HandlerRuns.HandlerServes` | internal/ws/handler.go:54-124 | From any state a connection, a successful attach and a delivered greeting are possible and lead to a handler whose pumps both read and whose pty is open |
| `HandlerRuns.OthersMayAct` | internal/tmux/manager.go:177-251 | In any reachable state the server can be shut down, which closes every client, and a session killed, which closes every client of its id and ends it, or created again |
| `Tracking.CancelOk` | frontend/src/stores/appStore.ts:40-47 | Cancelling any set of sessions keeps the two maps and the pending timeouts in step |
| `Tracking.MarkOk` | frontend/src/stores/appStore.ts:378-394 | Recording output keeps them in step, the timer of the session being replaced |
| `Tracking.ExpireOk` | frontend/src/stores/appStore.ts:391-395 | A timeout that fires finds its track, was due `IDLE_MS` after the last byte, and leaves the maps in step |
| `Tracking.ApplyToasts` | frontend/src/stores/appStore.ts:175-255 | Every commit of the store only filters the toasts, and whatever it keeps is still unread |
| `Tracking.InvStep` | frontend/src/stores/appStore.ts:367-480 | Any event (output, a timeout, a commit with any API result) keeps the timer and toast invariants |
| `Tracking.InvAlways` | frontend/src/stores/appStore.ts:111-480 | They hold in every reachable state, for every interleaving of events |
| `Tracking.TimerBookkeeping` | frontend/src/stores/appStore.ts:34-47 | In every reachable state `busyTrack` and `idleTimers` have the same keys, `startedAt` <= `lastByteAt`, every tracked session has one pending timeout and no session has two, each is due 1500 ms after the last byte, and its track exists: the missing-track branch is dead |
| `Tracking.ToastStack` | frontend/src/stores/appStore.ts:439-453 | In every reachable state: at most five toasts, every one of an unread session, ordered by time, one per session, distinct ids |
| `Tracking.CoalescingRemovesNothing` | frontend/src/stores/appStore.ts:446-448 | The coalescing filter never removes a toast |
| `Tracking.ViewedIsRead` | frontend/src/stores/appStore.ts:215-255 | Viewing a session (by activating it, by switching to its workspace, or by clearing it) leaves no badge, toast or pending timeout of it, keeps the times in its record, and changes no other record |
| `Unread.DeletedSessionIsForgotten` | frontend/src/stores/appStore.ts:291-321 | A deleted session leaves no badge, toast, track or timeout if and only if there is an active workspace or it had no badge |
| `Unread.DeletedWorkspaceIsForgotten` | frontend/src/stores/appStore.ts:175-206 | A session leaves none of these when a workspace is deleted if and only if the list loaded for that workspace has it, or there was none before |
| `Unread.DeletionSparesOthers` | frontend/src/stores/appStore.ts:175-206 | A deletion leaves badge and toasts of every other session as they were |
| `Unread.DeletionSparesTimers` | frontend/src/stores/appStore.ts:175-206 | A deletion leaves track and timeout of every other session as they were |
| `Unread.DeletionLeavesBadge` | frontend/src/stores/appStore.ts:297 | Counterexample: a run from the start in which a deleted session keeps its unread badge, as no workspace is active |
| `Unread.WorkspaceDeletionLeavesBadge` | frontend/src/stores/appStore.ts:179 | Counterexample: the same for a workspace whose list is not loaded |
| `Unread.ActiveReadStep` | frontend/src/stores/appStore.ts:121-457 | A step leaves the session that is shown read, if it was, if and only if it is none of these: the end of a burst of the active session while the page is hidden, a deletion that promotes an unread session, a load or creation that selects an unread id |
| `Unread.ActiveReadRuns` | frontend/src/stores/appStore.ts:121-457 | The session that is shown is never unread in exactly the runs without such a step |
| `Unread.HiddenPageExposes` | frontend/src/stores/appStore.ts:404-421 | Counterexample: a run from the start in which the active session of a hidden page becomes unread |
| `Unread.DeletionExposes` | frontend/src/stores/appStore.ts:297-300 | Counterexample: a run from the start in which a deletion shows an unread session |
| `Tracking.NewToast` | frontend/src/stores/appStore.ts:422-453 | A new toast is on top, names a session of a loaded list by id and title, carries the time of the last byte and the id made of both, and pushes out only the oldest when the stack is full |
| `Foreground.SeenIsNotTracked` | frontend/src/stores/appStore.ts:369-376 | Output of the session that is shown on a visible page leaves no track, timer entry or pending timeout of it, and every other session its own |
| `Foreground.TrackStep` | frontend/src/stores/appStore.ts:367-399 | A step tracks a session exactly if it is output of it that is not seen, or it was tracked and the step is none of: output of it that is seen, a commit that attends to it, its timeout; the two times are moved by such output alone |
| `Foreground.TrackedIsUnseen` | frontend/src/stores/appStore.ts:367-399 | In every run from the start a session is tracked if and only if it had unseen output since it was last seen, attended to, or its timeout ran |
| `Foreground.TrackCoversUnseen` | frontend/src/stores/appStore.ts:378-384 | The two times of a track are those of the first and the last unseen output since then |
| `Foreground.BadgeStep` | frontend/src/stores/appStore.ts:391-421 | A badge is lit by exactly these steps: the timeout of the session, while it is not shown on a visible page, after output over at least 500 ms |
| `Foreground.ToastStep` | frontend/src/stores/appStore.ts:422-453 | A session without a badge gets a toast by exactly those of these steps at which some loaded list has it |
| `Foreground.BadgeCoversUnseen` | frontend/src/stores/appStore.ts:367-421 | In every run a badge is lit only for unseen output: 500 ms of it at least, then 1500 ms of silence at least, and the record carries the time of the last byte |
| `Bursts.SplitIsSplit` | frontend/src/stores/appStore.ts:21-27 | Every output history splits into bursts with short gaps inside and at least `IDLE_MS` between them |
| `Bursts.SplitIsUnique` | frontend/src/stores/appStore.ts:21-27 | There is only one such split, so it is a reference that does not depend on how it is computed |
| `Bursts.SplitSnoc` | frontend/src/stores/appStore.ts:378-384 | Adding one later time extends the last burst or starts a new one |
| `Bursts.FollowsOutput` | frontend/src/stores/appStore.ts:378-394 | Output of a background session keeps the two numbers equal to the first and last time of the open burst if and only if the timeout of that session is not late |
| `Bursts.FollowsFire` | frontend/src/stores/appStore.ts:391-399 | A timeout closes exactly the open burst and reports it exactly if it lasted `MIN_BUSY_MS` |
| `Bursts.RecordedAlways` | frontend/src/stores/appStore.ts:411-421 | In every background run the unread record is written by the first report since the last clear and by no later one, late timeouts or not |
| `Bursts.FollowsRuns` | frontend/src/stores/appStore.ts:367-421 | The tracker follows the split at every point of exactly the background runs in which the own timeout of the session is never late |
| `Bursts.TrackerRefinesSplit` | frontend/src/stores/appStore.ts:367-457 | For any history of a background session whose own timeout is never late, whatever other sessions and their timeouts do, the online tracker reports exactly the closed bursts of the offline split that last `MIN_BUSY_MS`, writes the record with the last time of the first of them, and follows the burst still open |
| `LateTimeouts.SplitSpansNothing` | frontend/src/stores/appStore.ts:21-27 | No burst of the split of a history in order has a silence of `IDLE_MS` in it |
| `LateTimeouts.LostAfterLate` | frontend/src/stores/appStore.ts:378-399 | After a late output, in every background run, a burst that goes on over such a silence is being followed or has been reported |
| `LateTimeouts.ReportsAreExact` | frontend/src/stores/appStore.ts:367-421 | At any point of a background run at which the tracker follows nothing, its reports are the busy bursts of the split if and only if the own timeout of the session was never late |
| `LateTimeouts.LateTimeoutJoinsBursts` | frontend/src/stores/appStore.ts:378-394 | Counterexample with a late timeout: two single bytes are reported as one burst |
| `AppStore.Find` | frontend/src/stores/appStore.ts:429-430 | Returns the first session with the id, or none exactly if the list has none |
| `AppStore.AppStore.constructor` | frontend/src/stores/appStore.ts:111-119 | The store starts empty with no tracking |
| `AppStore.AppStore.CancelIdleTracking` | frontend/src/stores/appStore.ts:40-47 | In place: clears the pending timeout and both map entries of a session |
| `AppStore.AppStore.MarkSessionOutput` | frontend/src/stores/appStore.ts:367-394 | In place: exactly the output step, in the foreground and in the background |
| `AppStore.AppStore.FindSession` | frontend/src/stores/appStore.ts:428-435 | The search over the loaded lists finds the first session of some list with the id, and fails only if no list has it |
| `AppStore.AppStore.OnIdle` | frontend/src/stores/appStore.ts:391-454 | In place: exactly the timeout step, on each of its early returns |
| `AppStore.AppStore.MarkUnread` | frontend/src/stores/appStore.ts:411-454 | In place: the record and, for a session that was found, the toast on a stack of at most `MAX_TOASTS` |
| `AppStore.AppStore.ClearSessionUnread` | frontend/src/stores/appStore.ts:459-473 | In place: exactly the commit that views a session |
| `AppStore.AppStore.SetActiveSession` | frontend/src/stores/appStore.ts:339-360 | In place: exactly its commit |
| `AppStore.AppStore.SetActiveWorkspace` | frontend/src/stores/appStore.ts:221-254 | In place: exactly its commit, with the remembered session if it still exists, else the first |
| `AppStore.AppStore.DeleteSession` | frontend/src/stores/appStore.ts:293-320 | In place: exactly its commit, promotion of the next session included |
| `AppStore.AppStore.ForgetSessions` | frontend/src/stores/appStore.ts:187-192 | The loop forgets activity, track and timeout of exactly the removed sessions |
| `AppStore.AppStore.DeleteWorkspace` | frontend/src/stores/appStore.ts:177-205 | In place: exactly its commit |
| `AppStore.AppStore.SessionsAreEqual` | frontend/src/stores/appStore.ts:62-78 | True exactly if the lists agree in length and in every field that is shown (`ClientChoices.PollShowsFetched` says which) |
| `AppStore.AppStore.PollActive` | frontend/src/stores/appStore.ts:268-277 | In place: exactly its commit, which skips an equal list |
| `AppStore.AppStore.WorkspaceUnread` | frontend/src/stores/appStore.ts:487-494 | True exactly if some session of the loaded list is unread |
| `Tables.OrderBySorts` | internal/store/sqlite.go:68 | The model of `ORDER BY sort_order, created_at` returns the rows, all of them and no others, sorted by that key |
| `Tables.OrderByKeeps` | internal/store/sqlite.go:140-144 | It leaves rows that are already in order as they are |
| `Tables.MaxOrderBounds` | internal/store/sqlite.go:106-108 | `COALESCE(MAX(sort_order), -1)` is at least every `sort_order` |
| `Tables.MaxOrderIsThere` | internal/store/sqlite.go:106-108 | It is the order of some row, or -1 without rows |
| `Tables.ListingOrder` | internal/store/sqlite.go:140-159 | A session listing has exactly the rows of the workspace, by rising `sort_order` and among equals by rising `created_at`, whatever the tables hold |
| `Tables.WorkspaceListingOrder` | internal/store/sqlite.go:67-83 | The same for workspaces |
| `Tables.CreatedRow` | internal/store/sqlite.go:175-200 | A created session is one new last row with the id, workspace, times and title asked for, "Terminal" for an empty one, and the next free order of its workspace; a taken id or missing workspace changes nothing |
| `Tables.CreatedWorkspaceRow` | internal/store/sqlite.go:98-118 | A created workspace is one new last row with the id, name and times asked for and the next free order; a taken id changes nothing |
| `Tables.RenamedRows` | internal/store/sqlite.go:202-213 | Renaming a session writes its title and `updated_at` and no other field or row |
| `Tables.RenamedWorkspaceRows` | internal/store/sqlite.go:120-131 | Renaming a workspace writes its name and `updated_at` and no other field or row |
| `Tables.CreateWorkspaceOk` | internal/store/sqlite.go:98-118 | Creating a workspace keeps ids and orders distinct and every session under a workspace |
| `Tables.CreateSessionOk` | internal/store/sqlite.go:175-200 | Creating a session does, also when the key or the foreign key refuses it |
| `Tables.StaleOrder` | internal/store/sqlite.go:188-195 | The maximum is read before the insert: what was read keeps the rows in order (unique ids, rising `sort_order` within a workspace, no orphans) if and only if no session of the workspace has gone past it meanwhile |
| `Tables.StaleOrderDistinct` | internal/store/sqlite.go:188-195 | It keeps `sort_order` distinct within a workspace if and only if none of its sessions has the number after the maximum that was read |
| `Tables.StaleWorkspaceOrderDistinct` | internal/store/sqlite.go:106-113 | The same for workspaces: distinct if and only if no workspace has the number after the maximum that was read |
| `Tables.RacedCreates` | internal/store/sqlite.go:188-195 | Counterexample: of two creates in one workspace that both read first, the second breaks order and distinctness |
| `Tables.RacedWorkspaceCreates` | internal/store/sqlite.go:106-113 | Counterexample: of two workspace creates that both read first, the second draws a `sort_order` that is taken |
| `Tables.RemoveOk` | internal/store/sqlite.go:133-136 | Deleting a session, or a workspace with its cascade, does |
| `Tables.DbOkStep` | internal/store/sqlite.go:24-32 | Every statement keeps: ids unique, `sort_order` distinct and increasing by row within a workspace, no session row without its workspace |
| `Tables.ListingsAreRows` | internal/store/sqlite.go:140-159 | Both listings are the rows in the order of insertion |
| `Tables.ListedStep` | internal/store/sqlite.go:140-218 | A statement drops from a listing exactly the ids that die and appends the id it creates; nothing is reordered, whatever the titles and times |
| `Tables.ListingOrderIsCreationOrder` | internal/store/sqlite.go:188-190 | Over any run from empty tables with fresh ids a listing is the sessions created in the workspace, in that order, without those that died |
| `Tables.CascadeRemovesListed` | internal/store/sqlite.go:24-32 | The cascade removes a session if and only if a listing just before it contains it |
| `Store.SqliteStore.ListWorkspaces` | internal/store/sqlite.go:67-83 | The loop returns the workspaces, all of them and no others, ordered by `sort_order`, `created_at` |
| `Store.SqliteStore.ListSessions` | internal/store/sqlite.go:140-159 | The loop returns the sessions of one workspace, all of them and no others, in that order |
| `Store.SqliteStore.GetWorkspace` | internal/store/sqlite.go:85-96 | Returns a row with the id, or none exactly if there is none |
| `Store.SqliteStore.GetSession` | internal/store/sqlite.go:161-173 | Returns a row with the id, or none exactly if there is none |
| `Store.SqliteStore.CreateWorkspace` | internal/store/sqlite.go:98-118 | In place: exactly the insert, and the row returned is the row stored |
| `Store.SqliteStore.CreateSession` | internal/store/sqlite.go:175-200 | In place: exactly the insert with its default title, or no row when the key or the foreign key refuses it |
| `Store.SqliteStore.UpdateWorkspace` | internal/store/sqlite.go:120-131 | In place: exactly the update; returns the new row, or none exactly if no row has the id |
| `Store.SqliteStore.UpdateSession` | internal/store/sqlite.go:202-213 | In place: exactly the update; returns the new row, or none exactly if no row has the id |
| `Store.SqliteStore.DeleteSession` | internal/store/sqlite.go:215-218 | In place: exactly the delete |
| `Store.SqliteStore.DeleteWorkspace` | internal/store/sqlite.go:133-136 | In place: exactly the delete with its cascade |
| `Store.DeleteWorkspace` | internal/api/workspace.go:79-94 | List, cascade delete, then kill each listed session; a listing that fails counts as empty, a deletion that fails ends it with store and manager as they were |
| `Store.KillListed` | internal/api/workspace.go:88-92 | The loop kills the listed sessions one after the other |
| `Store.KillEachRemoves` | internal/server/server.go:59-61 | Killing a list of ids removes their slots, cached sizes and tmux sessions and nothing else, and keeps ownership |
| `Store.WorkspaceDeletionIsExact` | internal/api/workspace.go:79-94 | For any listing, killing what it has removes slot, cached size and tmux session of exactly the ids whose rows the cascade removed if and only if listing and cascade have the same sessions, as far as manager or tmux server know them |
| `Store.UndisturbedDeletionIsExact` | internal/api/workspace.go:79-94 | So it does when nothing comes between listing and cascade |
| `Store.CreatedBetweenSurvives` | internal/api/workspace.go:83-84 | Counterexample: a session created between them loses its row and keeps its tmux session |
| `Store.FailedListingKillsNothing` | internal/api/workspace.go:83 | After a listing that failed nothing is killed, which is right exactly if the sessions of the workspace have no slot, cached size or tmux session |
| `ClientCache.InitCoherent` | frontend/src/stores/appStore.ts:121-156 | `init` ends with the workspace list and every session list equal to the ordered lists of the server, apart from `cwd`, also when it creates the first workspace or session |
| `ClientCache.CreateWorkspaceCoherent` | frontend/src/stores/appStore.ts:163-173 | Appending the created workspace and its one session keeps the cache |
| `ClientCache.CreateSessionCoherent` | frontend/src/stores/appStore.ts:279-289 | Appending the created session keeps the cache |
| `ClientCache.DeleteWorkspaceCoherent` | frontend/src/stores/appStore.ts:175-206 | Filtering the workspaces and dropping one list keeps the cache |
| `ClientCache.RenameWorkspaceCoherent` | frontend/src/stores/appStore.ts:208-213 | Mapping the returned row into the list keeps the cache |
| `ClientCache.SetActiveWorkspaceCoherent` | frontend/src/stores/appStore.ts:215-255 | Activating a workspace keeps the cache, with a loaded or a fetched list |
| `ClientCache.FetchCoherent` | frontend/src/stores/appStore.ts:257-277 | Fetching and polling keep the cache |
| `ClientCache.DeleteSessionCoherent` | frontend/src/stores/appStore.ts:291-321 | `deleteSession` keeps the cache if and only if the session is in no loaded list other than the active one |
| `ClientCache.RenameSessionCoherent` | frontend/src/stores/appStore.ts:323-337 | `renameSession` keeps the cache if and only if the session is in no loaded list other than the active one, or its row has that title and time already |
| `ClientCache.PollRefreshes` | frontend/src/stores/appStore.ts:268-277 | After `pollActive` the active list is the fetched one in every field, also when the update was skipped |
| `ClientCache.ActiveSessionIsListed` | frontend/src/stores/appStore.ts:121-360 | What the selection invariant means: the active session is in the active list and is null exactly if that list is empty |
| `ClientCache.SetActiveSessionSelected` | frontend/src/stores/appStore.ts:339-360 | `setActiveSession` keeps the selection if and only if the session is in the list of the active workspace |
| `ClientCache.CreateSessionSelected` | frontend/src/stores/appStore.ts:279-289 | `createSession` keeps the selection if and only if it is called on the active workspace |
| `ClientCache.DeleteSessionSelected` | frontend/src/stores/appStore.ts:291-321 | `deleteSession` always keeps the selection |
| `ClientCache.DeleteWorkspaceSelected` | frontend/src/stores/appStore.ts:175-206 | `deleteWorkspace` always keeps the selection |
| `ClientCache.SetActiveWorkspaceSelected` | frontend/src/stores/appStore.ts:215-255 | `setActiveWorkspace` always keeps the selection |
| `ClientCache.SwitchBack` | frontend/src/stores/appStore.ts:215-255 | Round trip: switching to another loaded workspace and back shows the session that was active and leaves lists and remembered sessions as they were |
| `ClientCache.DeletionShowsFirst` | frontend/src/stores/appStore.ts:184 | After a deletion the active workspace is the one the server lists first, or null exactly if none is left |
| `ClientChoices.DeletedTab` | frontend/src/stores/appStore.ts:291-321 | Deleting the tab that is shown shows the first tab left, deleting another keeps the one shown, and no other list or remembered tab changes |
| `ClientChoices.DeletedWorkspace` | frontend/src/stores/appStore.ts:175-206 | Deleting a workspace shows the first one left with its remembered tab, or else its first, and keeps every other list and remembered tab |
| `ClientChoices.SwitchedTo` | frontend/src/stores/appStore.ts:215-255 | Switching shows the remembered tab if the list still has it, else the first, and keeps every other list and remembered tab |
| `ClientChoices.CreatedIsShown` | frontend/src/stores/appStore.ts:279-289 | A created session is last in its list, shown and remembered, and nothing else moves |
| `ClientChoices.CreatedWorkspaceIsShown` | frontend/src/stores/appStore.ts:163-173 | A created workspace is last, active and shows its one session, and nothing else moves |
| `ClientChoices.PickedIsShown` | frontend/src/stores/appStore.ts:339-360 | Picking a tab shows it and remembers it for the active workspace alone |
| `ClientChoices.InitShowsFirst` | frontend/src/stores/appStore.ts:121-156 | After `init` the first workspace and its first session are shown and every workspace remembers its first session; what it creates is called "Default" and "Terminal" |
| `ClientChoices.PollShowsFetched` | frontend/src/stores/appStore.ts:268-277 | Whatever the client holds, after a poll its list agrees with the fetched one in id, title, `cwd` and `updatedAt` of every session; the poll changes nothing exactly if it did before |
| `ClientChoices.PollBringsDirectories` | frontend/src/stores/appStore.ts:268-277 | After a poll each session of the active list has the directory that tmux reports for it, or none, and every other field of its row |
| `ClientChoices.RenamedInPlace` | frontend/src/stores/appStore.ts:323-337 | A rename puts the returned row in the place of the old one and changes nothing else |
| `ClientChoices.FetchBringsRows` | frontend/src/stores/appStore.ts:257-266 | Whatever the client holds, a fetch brings the ordered rows of the server with the directories that tmux reports, and changes nothing else |
| `ClientChoices.RenamedWorkspaceIsShown` | frontend/src/stores/appStore.ts:208-213 | Renaming a workspace of a right cache to a name that is not empty goes through and shows name and time in its place, every other row as it was |
| `ClientRuns.DeleteElsewhere` | frontend/src/stores/appStore.ts:291-298 | Counterexample: a run from `init` with two workspaces in which deleting a session of the other one leaves it in the list of the client |
| `ClientRuns.RenameElsewhere` | frontend/src/stores/appStore.ts:323-336 | Counterexample: such a run in which renaming one leaves the old row in the list of the client |
| `ClientRuns.CreateElsewhere` | frontend/src/stores/appStore.ts:279-289 | Counterexample: such a run in which creating one makes it active while its workspace is not |
| `ClientRuns.PickElsewhere` | frontend/src/stores/appStore.ts:339-358 | Counterexample: such a run in which picking one shows it under the active workspace |
| `ClientRuns.SyncedStep` | frontend/src/stores/appStore.ts:121-337 | An operation with successful calls keeps cache and tables right if and only if it is no delete, and no rename with effect, of a session in a loaded list other than the active one |
| `ClientRuns.SelectedStep` | frontend/src/stores/appStore.ts:121-360 | An operation keeps the selection if and only if it does not create in, or pick from, a workspace that is not active |
| `ClientRuns.CacheCoherence` | frontend/src/stores/appStore.ts:121-337 | Over a sequential run from `init`, on any server contents with unique ids, ordered rows and no orphans, the workspace list and every loaded session list equal the ordered lists of the server apart from `cwd` after each operation if and only if the run has no such delete or rename |
| `ClientRuns.ActiveSelection` | frontend/src/stores/appStore.ts:121-360 | Besides, a remembered session exists for exactly the non-empty loaded workspaces, is one of their own, and for the active one is the active session, after each operation if and only if sessions are also created in and picked from the active workspace only |
| `Reconnect.LoadStep` | frontend/src/hooks/useTerminal.ts:212-285 | From any state with at most one ticket request or live socket a step leaves at most one if and only if it is no second dial: a timer or a mount that gets past the guard of line 213 while there is one already |
| `Reconnect.OneConnection` | frontend/src/hooks/useTerminal.ts:212-285 | An instance has at most one of a ticket request in flight, a connecting socket and an open socket at every point of exactly the runs without a second dial |
| `Reconnect.OneTimer` | frontend/src/hooks/useTerminal.ts:201-210 | In every run, without any condition, at most one reconnect timer is pending |
| `Reconnect.InvStep` | frontend/src/hooks/useTerminal.ts:201-285 | A step keeps a stronger invariant (all sockets but the one held are closed) if and only if it is not a timer that dials while the held socket is still closing |
| `Reconnect.OneConnectionUnlessClosing` | frontend/src/hooks/useTerminal.ts:212-215 | A sufficient condition: in runs without a dial over a closing socket there is never more than one |
| `Reconnect.OneConnectionAtomic` | frontend/src/hooks/useTerminal.ts:212-285 | Runs in which sockets close together with `onclose` and nothing is disposed are of that kind |
| `Reconnect.NeverStuck` | frontend/src/hooks/useTerminal.ts:201-285 | From the first connect on, and until the instance is disposed, a ticket request is in flight, a socket is not closed yet, or a reconnect timer is pending, however slowly sockets close |
| `Reconnect.ClosingSocketDoublesRequests` | frontend/src/hooks/useTerminal.ts:213-215 | Counterexample otherwise: a run at whose end two ticket requests are in flight |
| `Reconnect.DialsExactly` | frontend/src/hooks/useTerminal.ts:212-217 | A ticket is requested exactly by a timer whose id is present, or a mount without a socket or with a closed one, when no request is in flight and the socket held is neither connecting nor open |
| `Reconnect.DisposeStops` | frontend/src/hooks/useTerminal.ts:393-401 | Disposing leaves no pending timer and no id, the socket held starts closing, and every other socket stays |
| `Reconnect.DisposedStaysQuiet` | frontend/src/hooks/useTerminal.ts:229-236 | From then on, as long as the id does not come back, the instance requests no ticket and opens no socket, whatever timers and answers are still to come |
| `Reconnect.DisposedStep` | frontend/src/hooks/useTerminal.ts:205-236 | A disposed instance requests a ticket or opens a socket exactly if its id is back when an answer arrives, or when a timer runs and the guard passes |
| `Reconnect.ReturnedIdRevivesDisposed` | frontend/src/hooks/useTerminal.ts:229-236 | Counterexample: a run at whose end a disposed instance has opened a socket, as its id came back while the ticket was on its way |
| `Reconnect.GoneIdStaysQuiet` | frontend/src/hooks/useTerminal.ts:205-209 | A run in which the id comes back and goes again: the failed request sets a timer, and that requests nothing |
| `Reconnect.DelayBounds` | frontend/src/hooks/useTerminal.ts:43-47 | Every delay lies in [400, 12000) and within a fifth of the base, so the floor of 250 never binds |
| `Reconnect.OpenResetsBackoff` | frontend/src/hooks/useTerminal.ts:238-243 | After a successful open the attempt counter is the number of reconnects scheduled since, so the schedule starts again at half a second |
| `Reconnect.DelaysAddUp` | frontend/src/hooks/useTerminal.ts:201-210 | The delays scheduled between two points of a run with no open between them sum to at least the doubling schedule, and each raises the attempt counter |
| `Reconnect.LeastSumIs` | frontend/src/hooks/useTerminal.ts:43-47 | Five or more steps of that schedule sum to exactly 12400 + 8000 (k - 5) |
| `Reconnect.BackoffIsExponential` | frontend/src/hooks/useTerminal.ts:40-47 | So k >= 5 reconnects with no open between them wait at least 12400 + 8000 (k - 5) ms together |
| `Terminal.TerminalInstance.ScheduleReconnect` | frontend/src/hooks/useTerminal.ts:201-210 | In place: replaces the pending timeout, counts the attempt, returns the delay of the attempt before, in [400, 12000) |
| `Terminal.TerminalInstance.ConnectWebSocket` | frontend/src/hooks/useTerminal.ts:212-217 | In place: sends a ticket request exactly if nothing is connecting or open |
| `Terminal.TerminalInstance.OnTicket` | frontend/src/hooks/useTerminal.ts:229-236 | In place: opens a socket, or gives up when the id is gone |
| `Terminal.TerminalInstance.OnTicketFailed` | frontend/src/hooks/useTerminal.ts:222-227 | In place: schedules a reconnect |
| `Terminal.TerminalInstance.OnOpen` | frontend/src/hooks/useTerminal.ts:238-243 | In place: clears `connecting` and the attempt counter |
| `Terminal.TerminalInstance.OnClose` | frontend/src/hooks/useTerminal.ts:275-278 | In place: clears `connecting` and schedules a reconnect |
| `Terminal.TerminalInstance.OnTimer` | frontend/src/hooks/useTerminal.ts:205-209 | In place: connects if the id is still there |
| `Terminal.TerminalInstance.OnMount` | frontend/src/hooks/useTerminal.ts:347-349 | In place: connects if there is no socket or it is closed |
| `Terminal.TerminalInstance.OnDispose` | frontend/src/hooks/useTerminal.ts:393-401 | In place: clears the timer, starts closing the socket, removes the entry |
| `Auth.TicketOrigin` | internal/server/auth.go:59-69 | A ticket in the map was made by one earlier step and expires 30 s after it |
| `Auth.TicketStaysGone` | internal/server/auth.go:79-84 | A ticket that is gone never comes back |
| `Auth.TicketIsSingleUse` | internal/server/auth.go:71-85 | Over any interleaving a ticket admits one request at most, and only less than 30 s after it was made |
| `Auth.CookieSparesTickets` | internal/server/server.go:86-109 | A request that needs no ticket leaves the ticket map alone; one admitted by a ticket removes that ticket |
| `Auth.RejectedForever` | internal/server/auth.go:36-51 | Once an issued session token is rejected it is rejected at every later time |
| `Auth.SessionIsLogin` | internal/server/auth.go:24-57 | In every run a token is valid exactly if it is of a login at most seven days old that has not been ended, expired entries dropped or not |
| `Auth.TicketIsFresh` | internal/server/auth.go:59-85 | In every run a ticket is good exactly if it was made less than thirty seconds ago and no request has looked it up since |
| `Auth.AdmittedExactly` | internal/server/server.go:86-109 | In every run a request is let in if and only if no password is set, or its cookie is of such a login, or it asks for an upgrade with such a ticket |
| `Auth.StrangersAreRejected` | internal/server/server.go:94-107 | With a password set, a request whose cookie is of no login and whose ticket was never made is rejected in every run |
| `Auth.LastMilliseconds` | internal/server/auth.go:36-85 | A run at the limits: the ticket serves once, up to the last millisecond of thirty seconds, and the login up to that of the seventh day, until the logout |
| `Auth.AuthManager.constructor` | internal/server/auth.go:17-22 | No sessions and no tickets at first |
| `Auth.AuthManager.NewSession` | internal/server/auth.go:24-34 | In place: the token is valid for seven days |
| `Auth.AuthManager.ValidateSession` | internal/server/auth.go:36-51 | True exactly for a known token that has not expired; forgets an expired one and nothing else |
| `Auth.AuthManager.Logout` | internal/server/auth.go:53-57 | In place: forgets the token |
| `Auth.AuthManager.NewTicket` | internal/server/auth.go:59-69 | In place: the ticket is good for thirty seconds |
| `Auth.AuthManager.ConsumeTicket` | internal/server/auth.go:71-85 | True exactly for a known ticket that has not expired; removes it either way |
| `Auth.AuthManager.RequireAuth` | internal/server/server.go:86-109 | Admits exactly the requests of `Auth.AdmittedExactly`, and removes exactly the ticket that was looked up and the expired cookie |
| `Uploads.SanitizeIsSafe` | internal/api/upload.go:112-125 | Whatever the raw name, the result is empty, or free of slash, backslash and NUL and not hidden |
| `Uploads.SafeNamesAreFixed` | internal/api/upload.go:112-125 | The safe names are exactly the non-empty ones that sanitising keeps |
| `Uploads.SanitizeIsIdempotent` | internal/api/upload.go:112-125 | Sanitising twice is sanitising once |
| `Uploads.AltInjective` | internal/api/upload.go:135-138 | The numbered alternatives of a name are pairwise different |
| `Uploads.AltIsSafe` | internal/api/upload.go:135-138 | Every alternative of a safe name is safe |
| `Uploads.UniqueName` | internal/api/upload.go:127-145 | The loop returns the first alternative that is not taken |
| `Uploads.FirstFreeIsFirst` | internal/api/upload.go:127-145 | That name is free, every earlier alternative is taken, and the search fails exactly when all 10000 are |
| `Uploads.RepeatedUploads` | internal/api/upload.go:127-145 | In a directory with the first n alternatives of a name and none of the others, the search returns the n-th, for n below 10000, and then fails |
| `Uploads.NamesAreAlternatives` | internal/api/upload.go:129-145 | In every interleaving the name that an upload has chosen, writes or has stored is the i-th alternative of the name it asked for, for some i below 10000 |
| `Uploads.SoloUpload` | internal/api/upload.go:82-110 | An upload that runs alone searches and takes what `FirstFree` says: stored, it has added that file with all its data and changed no other; failed, it has changed nothing |
| `Uploads.UploadsInTurn` | internal/api/upload.go:127-145 | n uploads of one name, one after the other, into a directory without its alternatives are stored as name, "base (1)ext", ..., "base (n-1)ext", with n at most 10000, and no other file appears |
| `Uploads.NoNameLeft` | internal/api/upload.go:137-144 | When all 10000 are taken the next such upload stores nothing and changes nothing |
| `UploadNames.SanitizeIs` | internal/api/upload.go:112-125 | A raw name that is a directory part, dots, a name and slashes is stored as that name with backslashes replaced, so `.bashrc` as `bashrc`, and a name of dots only is refused |
| `UploadNames.SanitizeRefuses` | internal/api/upload.go:112-125 | A raw name with a NUL, or of slashes only, leaves no name, and the upload is refused |
| `UploadNames.EveryNameHasParts` | internal/api/upload.go:112-125 | Every raw name is of one of these two kinds: slashes only, or with such parts |
| `UploadNames.FilesInTurn` | internal/api/upload.go:127-145 | n uploads of `stem.e`, with no dot in `e`, one after the other into a directory without the alternatives, are stored as "stem.e", "stem (1).e", ..., and no other file appears |
| `UploadNames.PlainFilesInTurn` | internal/api/upload.go:127-145 | n uploads of a name without a dot are stored as "name", "name (1)", ... |
| `UploadNames.SearchNumbersFiles` | internal/api/upload.go:127-145 | For `stem.e` the search gives the first of "stem.e", "stem (1).e", ..., "stem (9999).e" that is not taken, or nothing exactly if all are |
| `UploadNames.SearchNumbersPlain` | internal/api/upload.go:127-145 | The same for a name without a dot, numbered at the end |
| `UploadNames.UploadCompletes` | internal/api/upload.go:82-110 | Any run goes on with an upload that is stored under the name that the search finds, whenever it finds one |
| `Uploads.InvAlways` | internal/api/upload.go:82-110 | In every interleaving of uploads: two uploads never own one file, every file of an upload has a safe name and holds a prefix of its data, all of it once stored |
| `Uploads.NothingIsOverwritten` | internal/api/upload.go:82-104 | No file that no upload is writing is ever changed or removed |
| `Uploads.StoredForGood` | internal/api/upload.go:88-109 | A stored upload has a safe name, holds all its data, and stays so |
| `Text.SuffixInjective` | frontend/src/stores/appStore.ts:440 | A toast id can be read back into its session and its time |
| `Text.DecimalInjective` | internal/api/upload.go:138 | Different numbers have different numerals |
| `Text.DecimalReads` | internal/api/upload.go:138 | A numeral reads as its number and has no leading zero |

## Left out

- Real tmux, PTYs and processes: tmux is a map from exact names to window sizes with has, new, resize and kill; prefix matching of target names, window-size policy and the time that `Wait` takes are not modelled.
- The pty's own window size (`Session.Resize`), which the manager does not keep: a resize frame is the manager's `Resize` alone.
- A tmux session that appears or ends between the commands of one critical section: `has-session` and `new-session` inside one `Attach` see the same server.
- Goroutines as objects: Dafny has no concurrency, so `Handlers` is a state machine over values; the methods of `Session`, `Manager` and the other classes are sequential and stand for one critical section each.
- Fair scheduling: a goroutine waiting for the socket writer's lock gets it when it can take its step; that the Go scheduler lets it is not proved.
- WebSocket framing, HTTP routing, JSON, cookies, bcrypt, random generation and SQL parsing: ids, tokens, times, jitter and the outcome of a command are parameters of a step.
- Failed API responses and interleaved writes of several clients: the cache does not stay right there, so `ClientRuns` covers operations one at a time with successful calls; the timer and toast results hold for every interleaving.
- `headerHasToken` and `isWebSocketUpgrade`: a request carries one boolean instead.
- The order in which `Object.entries` lists its keys: `FindSession` may find a session in any loaded list that has it.
- Empty ids: ids are UUIDs, so the source's truthiness tests on ids are modelled as tests for absence; only the toast's workspace id is compared with the empty string.
- Timeouts of one page with equal delays run in the order in which they were set, and the page's clock does not run back; `onerror` is delivered together with `onclose`.
- The terminal instance that a session id gets after `disposeTerminal`: to the old instance it is only an entry that comes and goes (`Recreate`, `Vanish`), for which it may dial again; nothing is claimed about two instances of one id together.
- Files that something other than an upload puts into, or removes from, the upload directory while the server runs, and `os.Stat` errors other than a missing file.
- No claim that every tmux session has a row: nothing stops an `Attach` for a deleted id.
- `GetCwd`, `ListTmuxSessions`, `deriveSocketLabel`, `ensureTmuxConfig`, `detectShell`, health check, SPA handler, password storage: one-step I/O.
- React components, xterm rendering, themes, drag and drop, the mobile input bar, IME handling, the client-side resize observer: user interface.
- Manager.KillSession: states the effect when no other call runs between its locked part and `kill-session`; `TmuxProtocol` has the two as separate steps and its results cover the interleavings.
- Auth.AuthManager.RequireAuth: states the effect when no other request runs between its checks; the run lemmas have the deletion of an expired session as a step of its own.
- Tables.ListingOrderIsCreationOrder: assumes that no session id is drawn twice, as with random UUIDs.
- Store.SqliteStore.CreateSession: reads the maximum and inserts in one step; `Tables.StaleOrder` says when a create in between does harm.
- Store.SqliteStore.CreateWorkspace: reads the maximum and inserts in one step; `Tables.StaleWorkspaceOrderDistinct` says when a create in between does harm.
- Store.DeleteWorkspace: lists, deletes and kills with nothing in between; `Store.WorkspaceDeletionIsExact` says, for any earlier listing, when that does harm.
- Tables.DbOkStep: takes a create as one step, as do the runs in `Tables`, `ClientCache` and `ClientRuns`.
