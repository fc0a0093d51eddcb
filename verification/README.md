# zk-learn-sphere: the state logic under the front-end, in Dafny

zk-learn-sphere is a React front-end for learning about zero-knowledge proofs:
quizzes, proof generation history, file uploads, search, notifications and a
realtime channel. Underneath the rendering sits a layer of small state
machines and pure computations. This project models that layer as immutable
Dafny datatypes and pure transition functions, and proves what each piece
promises:

- **Notification store** (`Notifications`): a newest-first log capped at 100
  records, with read marks, deletion, clearing, an unread count, preferences
  updated by a shallow merge, and the toast variant and duration choice.
- **Search history and saved searches** (`Search`):
  - a duplicate-free, newest-first history capped at 50 entries;
  - saved searches keyed by name and capped at 20;
  - the query-string round trip of `buildSearchUrl` / `parseSearchUrl` over the six filter keys.
- **Upload validation and batching** (`FileUpload`, `UploadHook`):
  - the size and type checks, using the constants of `src/utils/constants.ts`;
  - the sequential, best-effort multi-file upload and its rounded aggregate progress;
  - the hook's staging of files: a count limit, duplicates found by (name, size), type and size checks;
  - the hook's upload state transitions.
- **Realtime channel** (`Realtime`, `RealtimeHook`):
  - the service's per-event listener registry and exact-type dispatch;
  - its exponential reconnect back-off, capped at five attempts;
  - sends that are dropped unless the socket is open;
  - the hook's single pending reconnect timer, whose callback keeps the token
    and status it saw when scheduled, and its two 100-entry newest-first buffers.
- **Quizzes** (`QuizSession`, `QuizTimer`, `QuizNavigation`, `QuizResults`,
  `QuizHistory`):
  - answer selection and bounded navigation;
  - integer scoring and the countdown tick;
  - the navigation grid and submit gating;
  - threshold-based messages, colours and XP;
  - the history list's filter, sort and statistics.
- **Proof history** (`ProofHistory`): filter, sort, status counts, circuit
  types and success rate.
- **Search hook** (`SearchHook`): page bounds, the page reset on every query
  or filter change, the query-length gate, history filtering, the
  shareable-link round trip, and when the hook's shown history and saved
  searches are refreshed from the search service's.
- **Forms** (`Register`, `Login`, `FormErrors`): password strength and its
  requirements checklist, field validation and per-field error clearing.
- **Formatters** (`Formatters`): durations, clocks, progress, proof status
  labels, address joining and hash and address truncation.

Shared helpers:
- `Seqs`: filtering, counting, de-duplication and insertion sort.
- `Text`: ASCII lower-casing, substring search and decimal rendering, plus:
  - the `\S+@\S+\.\S+` email test, proved equal to a direct reading of the pattern;
  - code-point lexicographic order.
- `Numbers`: JavaScript's `Math.round(100 * a / b)` on exact rationals.
- `Options`: the `x || default` idiom.

Storage reads become a `Stored<T>` value (missing, unreadable or parsed).
Network outcomes become explicit `Outcome` values, one per file. Timers become
explicit events and pending-timer fields. Toasts become returned notices.

## Model

| member | source | states |
|---|---|---|
| Notifications.Add | src/services/notifications.ts:248-254 | the new record is first, the older records follow in order, and the log is cut to 100 records by dropping only the oldest |
| Notifications.AddAllKeepsNewest | src/services/notifications.ts:248-254 | adding a run of records one by one leaves the 100 newest, newest first |
| Notifications.FirstWithId | src/services/notifications.ts:261 | the position found holds the id and no earlier record holds it; it is past the end exactly when no record has the id |
| Notifications.MarkAsRead | src/services/notifications.ts:260-267 | only the first record with the id is marked read; every other record, the length and the order are unchanged; an unknown id changes nothing |
| Notifications.MarkAllAsRead | src/services/notifications.ts:269-273 | every record is read afterwards, with ids, contents, order and length kept |
| Notifications.MarkAllAsReadIdempotent | src/services/notifications.ts:269-273 | marking all read twice is marking all read once |
| Notifications.Delete | src/services/notifications.ts:275-279 | no record with the id remains, and a record is kept exactly when its id differs |
| Notifications.DeletePreservesOrder | src/services/notifications.ts:275-279 | the remaining records are the old ones without that id, in their old relative order |
| Notifications.Clear | src/services/notifications.ts:281-285 | the log is empty |
| Notifications.UnreadCount | src/services/notifications.ts:291-293 | the count is the number of unread records (the length of the unread filter), so never more than the log length, and 0 exactly when every record is read |
| Notifications.NothingUnreadAfterMarkAllOrClear | src/services/notifications.ts:269-293 | the unread count is 0 after marking all read and after clearing |
| Notifications.MarkAsReadUnreadCount | src/services/notifications.ts:260-267 | marking one record read lowers the unread count by one if it was unread and leaves it unchanged otherwise |
| Notifications.UpdatePrefs | src/services/notifications.ts:320-322 | each of the four fields takes the patch value when supplied and keeps its old value otherwise; a supplied `types` replaces the nested object whole |
| Notifications.DefaultPrefs | src/services/notifications.ts:36-49 | email, push and browser delivery and the quiz, proof, achievement and system types start enabled; marketing starts disabled |
| Notifications.UpdatePrefsIsShallowOverride | src/services/notifications.ts:320-323 | a supplied field replaces the old one and an absent one is kept (shown for `email` and for the nested `types`, which is replaced wholesale); an empty patch and a repeated patch change nothing; two updates equal one update with the merged patch |
| Notifications.LoadPrefs | src/services/notifications.ts:354-364 | missing or unreadable storage gives the defaults; for a stored patch each of email, push, browser and types is the stored value when present and the default otherwise |
| Notifications.LoadLog | src/services/notifications.ts:334-344 | missing or unreadable storage gives the empty log |
| Notifications.ShowToast | src/services/notifications.ts:52-64 | the destructive variant is used exactly for errors; an absent or zero duration becomes 5000 ms for errors and 3000 ms otherwise |
| Search.AddToHistory | src/services/search.ts:115-126 | a blank or already-present query changes nothing; otherwise it becomes the first entry, the older entries follow in order, and the list is cut to 50 |
| Search.RemoveFromHistory | src/services/search.ts:137-140 | no copy of the query remains, an entry is kept exactly when it differs from the query, and the history shrinks by exactly the number of copies of the query it held |
| Search.RemoveFromHistoryKeepsOrder | src/services/search.ts:137-140 | the remaining entries keep their relative order |
| Search.ClearHistory | src/services/search.ts:132-135 | the history is empty |
| Search.HistoryOpPreservesValid | src/services/search.ts:115-140 | adding, removing and clearing each keep the history free of duplicates and within 50 entries |
| Search.HistoryOpsPreserveValid | src/services/search.ts:115-140 | any sequence of history operations keeps the history free of duplicates and within 50 entries |
| Search.Normalize | src/services/search.ts:213-217 | an empty filter value becomes absent and a non-empty one is kept |
| Search.Get | src/services/search.ts:234 | the value is the one in the first pair carrying the key (`URLSearchParams.get`), and nothing is found exactly when no pair has the key |
| Search.KeyNamesDistinct | src/services/search.ts:229-231 | the six filter keys have six different names, none of them `q` |
| Search.BuildSearchParams | src/services/search.ts:210-220 | the parameters start with `q` carrying the query; the rest are exactly the filter pairs over the fixed key order, each with a non-empty value |
| Search.FilterParams | src/services/search.ts:213-217 | the filters contribute at most one pair per key, and no pair with an empty value |
| Search.FilterParamsOfGivenKeys | src/services/search.ts:213-217 | the filter pairs are the name and value of each key whose value is given, one per such key, in key order; their number is the number of given keys |
| Search.BuildSearchParamsOrder | src/services/search.ts:210-220 | after `q` the link lists the given filters' name and value pairs in the order category, difficulty, status, dateFrom, dateTo, type, and nothing else: 1 + (number of given filters) pairs in all |
| Search.GetFilterParams | src/services/search.ts:213-217 | the filter parameters carry a key exactly when it is among the listed keys and its value is non-empty, with that value, and never carry `q` |
| Search.ParseField | src/services/search.ts:233-238 | a filter reads the first value stored under its key when that value is non-empty, and nothing when it is empty or the key is missing |
| Search.ParseSearchParams | src/services/search.ts:222-241 | a missing `q` gives the empty query and a present one its first value; every filter is the first non-empty value under its own key, or absent |
| Search.ParseFilters | src/services/search.ts:229-238 | each filter field is the reading of its own key, independently of the others |
| Search.ParsedField | src/services/search.ts:233-238 | the filters of the full parse are read key by key |
| Search.SearchParamsRoundTrip | src/services/search.ts:210-241 | parsing a built query string recovers the query and its non-empty filters exactly |
| Search.RoundTripField | src/services/search.ts:210-241 | one filter field survives the round trip, up to treating empty as absent |
| Search.ParseIgnoresUnknownKeys | src/services/search.ts:229-238 | parameters under keys outside the known six do not change the parsed result |
| Search.RemoveSavedSearch | src/services/search.ts:184-187 | no saved search with the name remains, and one is kept exactly when its name differs |
| Search.RemoveSavedSearchKeepsOrder | src/services/search.ts:184-187 | the remaining saved searches keep their relative order |
| Search.SaveSearch | src/services/search.ts:163-178 | the new search is first and is the only one with its name; the rest are the old list without that name, in order, cut so the list has exactly min(that count + 1, 20) entries |
| FileUpload.ValidateFile | src/services/fileUpload.ts:134-149 | a file is accepted exactly when its size is positive and within 10 MiB and its type is allowed; the first failing check, size then type then emptiness, names the error |
| FileUpload.ValidationMessage | src/services/fileUpload.ts:134-149 | each error text starts "File ", and the unsupported-type text names the rejected type right after "File type " |
| FileUpload.ValidationMessageInjective | src/services/fileUpload.ts:134-149 | two different validation errors never produce the same text |
| FileUpload.IsValidFileType | src/services/fileUpload.ts:160-162 | below the size ceiling, a file passes the type check exactly when `validateFile` does not report its type; failing it means `validateFile` reports some error |
| FileUpload.IsValidFileSize | src/services/fileUpload.ts:164-166 | for an allowed type, a valid size is exactly passing `validateFile`; an invalid size is exactly too large or empty |
| FileUpload.GetFileInfo | src/services/fileUpload.ts:168-176 | the info repeats name, size and type and is valid exactly when type and size are both acceptable |
| FileUpload.FileInfoAgreesWithValidation | src/services/fileUpload.ts:160-176 | the info's validity agrees with `validateFile`'s acceptance on every file |
| FileUpload.FileProgress | src/services/fileUpload.ts:47-56 | progress is reported exactly when the total is positive, carrying loaded and total; its percentage is `Percent(loaded, total)`, round(100 · loaded / total): at most 100 when loaded is within the total, 100 when complete and 0 when nothing is loaded |
| FileUpload.AggregateProgress | src/services/fileUpload.ts:80-91 | while file i of n is at p percent the batch shows round((100 i + p) / n), stated as 2n·r <= 2(100 i + p) + n < 2n·(r + 1): at most 100, 0 at the start of the first file and 100 at the end of the last |
| FileUpload.AggregateProgressMonotone | src/services/fileUpload.ts:82-90 | the batch percentage never decreases as the file's percentage rises or as later files start |
| FileUpload.UploadFile | src/services/fileUpload.ts:26-66 | an invalid file fails with its validation message before any transfer; a valid one succeeds or fails as the transport does, a failure carrying the server's non-empty message or else "File upload failed" |
| FileUpload.SuccessesPlusFailures | src/services/fileUpload.ts:76-98 | every file is attempted once: results plus errors account for every file |
| FileUpload.SuccessesOfConcat | src/services/fileUpload.ts:76-98 | a failure does not skip later files: the results of a concatenation are the results of each part in order |
| FileUpload.NoSuccesses | src/services/fileUpload.ts:76-98 | no result is collected exactly when every file's upload fails |
| FileUpload.BatchOutcome | src/services/fileUpload.ts:68-109 | the batch throws exactly when there is a file and every file fails, with the failures joined after "All uploads failed: "; otherwise it returns the successes in input order, non-empty for a non-empty batch, and the failure count |
| FileUpload.UploadMultipleFiles | src/services/fileUpload.ts:68-109 | the call throws exactly when some upload failed and none succeeded, with every error joined into its message; otherwise it returns the successes in input order and the failure count; empty input returns the empty list |
| FileUpload.AllStoredAllReturned | src/services/fileUpload.ts:76-108 | when every file is valid and every transfer succeeds, every file has its result in input order and there are no errors |
| UploadHook.MaxFiles | src/hooks/useFileUpload.ts:42 | the limit is the option, with absent or zero meaning 10 |
| UploadHook.Rejection | src/hooks/useFileUpload.ts:56-83 | a candidate passes exactly when it is not already staged, its type is in the accepted list when one is given, and its size is valid; a duplicate gets the duplicate warning |
| UploadHook.Screen | src/hooks/useFileUpload.ts:56-83 | the kept candidates are the batch's accepted ones in batch order; the refused candidates, in batch order, each get their own notice (the size or the type message), one notice per refused candidate |
| UploadHook.ScreenConcat | src/hooks/useFileUpload.ts:56-83 | screening keeps input order: the kept candidates and the notices of a concatenation are those of each part, one after the other |
| UploadHook.AddFiles | src/hooks/useFileUpload.ts:40-90 | over the limit the whole batch is refused with one warning and nothing changes; otherwise the staged files are followed by the batch's accepted candidates in batch order, and the notices are exactly those of the refused candidates, in order |
| UploadHook.AddFilesKeepsLimit | src/hooks/useFileUpload.ts:45-53 | a staged list within the limit stays within it |
| UploadHook.SameBatchDuplicatesBothStaged | src/hooks/useFileUpload.ts:56-60 | two copies of one file in the same batch are both staged, since candidates are compared only with files already staged |
| UploadHook.StagedFileNotAddedTwice | src/hooks/useFileUpload.ts:57-64 | a file already staged is never staged again |
| UploadHook.RemoveFile | src/hooks/useFileUpload.ts:92-97 | exactly the file at the index is removed with the order kept; an out-of-range index changes nothing |
| UploadHook.RemoveFileMultiset | src/hooks/useFileUpload.ts:92-97 | removal takes out exactly one copy of the file at the index |
| UploadHook.BeginUpload | src/hooks/useFileUpload.ts:105-111 | the upload starts flagged as uploading, with progress at zero and results and errors cleared |
| UploadHook.UploadFiles | src/hooks/useFileUpload.ts:99-165 | nothing staged: one warning, no state change, nothing returned. Otherwise uploading ends and progress is cleared, and the call either returns its non-empty results (stored, with the "Successfully uploaded n file(s)" notice) or rethrows one error (recorded as the only error, with the "Upload Failed" notice carrying its message); one file returns `[result]` or throws its message; several throw exactly when the batch upload fails as a whole |
| UploadHook.UploadFailsIffEveryFileFails | src/hooks/useFileUpload.ts:113-163 | for any number of staged files, the upload records an error exactly when every file fails, and otherwise keeps the results of the stored files in staging order |
| UploadHook.ResetState | src/hooks/useFileUpload.ts:30-38 | no files, not uploading, no progress, no results, no errors |
| UploadHook.ResetForgets | src/hooks/useFileUpload.ts:30-38 | the state after a reset is the start state, whatever came before |
| Realtime.Subscribe | src/services/websocket.ts:104-108 | the listener is added under its event: a new event starts with that listener alone, a new listener goes at the end of the event's list, a listener already there changes nothing (set semantics), and every other event keeps its listeners |
| Realtime.Unsubscribe | src/services/websocket.ts:122-130 | the listener is removed from its event only, and the key goes when its list becomes empty |
| Realtime.RegistryOpsPreserveValid | src/services/websocket.ts:104-130 | subscribing and unsubscribing keep every registered key's list non-empty |
| Realtime.SubscribeThenUnsubscribe | src/services/websocket.ts:104-120 | subscribing a new listener and then calling its unsubscribe restores the registry |
| Realtime.HandleMessage | src/services/websocket.ts:91-102 | the payload goes to every listener of exactly the message's type, in registration order, and to no other; an unknown type reaches nobody; each throwing listener is logged and the rest still run |
| Realtime.DispatchAfterSubscribe | src/services/websocket.ts:91-108 | a listener just subscribed to an event receives the next message of that type |
| Realtime.SocketUrl | src/services/websocket.ts:39 | the URL carries `?token=` and the token exactly when a non-empty token is supplied |
| Realtime.Connect | src/services/websocket.ts:32-40 | an open socket is kept; otherwise, even while connecting, a new socket is created for the URL |
| Realtime.OnOpen | src/services/websocket.ts:40-46 | an open resets the reconnect attempts and reports connected; it marks the held socket open only when it comes from that socket, and an open from a replaced socket leaves the held one as it is |
| Realtime.AttemptReconnect | src/services/websocket.ts:76-89 | below five attempts the counter rises by one and a reconnect is scheduled after 1000·2^(k−1) ms; at five nothing is scheduled |
| Realtime.OnClose | src/services/websocket.ts:57-61 | a close reports disconnected and schedules a reconnect exactly when fewer than five attempts were made, counting that attempt; it closes the held socket only when it comes from that socket |
| Realtime.StaleCloseStillReconnects | src/services/websocket.ts:32-75 | the close of a socket replaced while connecting reports disconnected and schedules a reconnect while the new socket is still connecting; the close after `disconnect` also schedules one |
| Realtime.OnError | src/services/websocket.ts:63-66 | an error reports the error status and changes nothing else |
| Realtime.Disconnect | src/services/websocket.ts:69-74 | the socket is dropped and the attempt counter kept |
| Realtime.ReconnectSchedule | src/services/websocket.ts:76-89 | a run of closes schedules at most five reconnects, with delays 1000, 2000, 4000, 8000 and 16000 ms in that order |
| Realtime.LastDelay | src/services/websocket.ts:76-89 | no reconnect waits more than 16000 ms |
| Realtime.Send | src/services/websocket.ts:151-162 | the message is transmitted exactly when the socket is open, and otherwise dropped without queueing |
| Realtime.ConnectionState | src/services/websocket.ts:164-178 | no socket or a closing or closed one is disconnected, a connecting one is connecting, an open one connected |
| Realtime.ConnectOpenConnect | src/services/websocket.ts:32-46 | after a connect and an open, a second connect changes nothing |
| RealtimeHook.Connect | src/hooks/useWebSocket.ts:18-25 | a connect from the current render does nothing while one is in flight or while connected; otherwise it marks one in flight and calls the service once, passing the token only when there is one |
| RealtimeHook.ConnectWith | src/hooks/useWebSocket.ts:18-25 | a `connect` created in a render that saw a given status: it checks that captured status and the always-current in-flight flag |
| RealtimeHook.ConnectTwiceCallsOnce | src/hooks/useWebSocket.ts:18-25 | two connects in a row reach the service once |
| RealtimeHook.AutoConnect | src/hooks/useWebSocket.ts:36-40 | connects whenever a token is held and the status is disconnected (the effect re-runs on every change of token or status); otherwise nothing |
| RealtimeHook.StatusChanged | src/hooks/useWebSocket.ts:44-63 | the in-flight flag becomes (status is connecting); connected cancels and clears the pending timer; disconnected with a token and no pending timer schedules exactly one, which captures the token and the status from before the report |
| RealtimeHook.RepeatedDisconnectsScheduleOnce | src/hooks/useWebSocket.ts:49-56 | however many disconnected reports arrive while a timer is pending, only one timer is scheduled |
| RealtimeHook.TimerFires | src/hooks/useWebSocket.ts:50-55 | a live timer clears its reference; it calls the service, with its captured token, exactly when that token is present, no connect is in flight and the status it captured was not connected; an absent or cancelled timer does nothing |
| RealtimeHook.DroppedConnectionReconnectsThroughAutoConnect | src/hooks/useWebSocket.ts:36-56 | when an open connection drops, the scheduled timer does nothing because its `connect` still sees connected; the reconnect comes from the auto-connect effect |
| RealtimeHook.RepeatedDisconnectTimerConnects | src/hooks/useWebSocket.ts:44-56 | a timer scheduled by a disconnected report while already disconnected calls the service with its token when it fires |
| RealtimeHook.Disconnect | src/hooks/useWebSocket.ts:27-33 | the in-flight flag is cleared and the pending timer cancelled, but the timer reference is kept |
| RealtimeHook.DisconnectSuppressesReconnect | src/hooks/useWebSocket.ts:27-33 | since the stale reference survives, a disconnected report after a disconnect schedules no new timer |
| RealtimeHook.OnNotification | src/hooks/useWebSocket.ts:70-73 | the notification is prepended and the buffer keeps at most 100 entries, the newest |
| RealtimeHook.OnProofUpdate | src/hooks/useWebSocket.ts:80-83 | the update is prepended and the buffer keeps at most 100 entries, the newest |
| RealtimeHook.OnQuizUpdate | src/hooks/useWebSocket.ts:90-92 | a quiz update changes only the last message, no buffer |
| RealtimeHook.NotificationsKeepNewest | src/hooks/useWebSocket.ts:70-73 | after a run of notifications the buffer holds the 100 newest, newest first |
| RealtimeHook.ClearNotifications | src/hooks/useWebSocket.ts:118-120 | the notification buffer is emptied and the proof-update buffer kept |
| RealtimeHook.ClearProofUpdates | src/hooks/useWebSocket.ts:123-125 | the proof-update buffer is emptied and the notification buffer kept |
| RealtimeHook.ClearsAreIndependent | src/hooks/useWebSocket.ts:118-125 | each clear keeps the other buffer, and the two clears commute |
| RealtimeHook.GetConnectionInfo | src/hooks/useWebSocket.ts:128-136 | each flag is true exactly for its own status |
| RealtimeHook.ExactlyOneFlag | src/hooks/useWebSocket.ts:128-136 | exactly one of the four flags is true |
| Formatters.Split | src/utils/formatters.ts:29-31 | hours, minutes and seconds recombine to the total, with minutes and seconds below 60 |
| Formatters.SplitUnique | src/utils/formatters.ts:29-31 | any split with those bounds is that split |
| Formatters.FormatDuration | src/utils/formatters.ts:28-40 | with hours it reads as hours and minutes, else with minutes as minutes and seconds, else as seconds, and the numbers shown are those of the split |
| Formatters.FormatDurationIgnoresSecondsAfterAnHour | src/utils/formatters.ts:33-35 | durations at or past an hour that differ only in seconds format the same |
| Formatters.Padded | src/utils/formatters.ts:48 | the number in at least two digits that read back as the number: below 10 it is "0" and the numeral, from 10 on the plain numeral |
| Formatters.FormatTimeRemaining | src/utils/formatters.ts:42-51 | without hours it reads as two-digit minutes and seconds, with hours as hours and two-digit minutes and seconds; each field reads back as the hours, minutes (below 60) and seconds (below 60) of the total, and hours carry no zero beyond the padding |
| Formatters.FormatProgress | src/utils/formatters.ts:54-58 | a zero total shows 0%, otherwise the numeral of the rounded share, without leading zeros, followed by % |
| Formatters.FormatCompletionRate | src/utils/formatters.ts:60-63 | a zero total shows "No data", otherwise "c/t completed" |
| Formatters.FormatProofStatus | src/utils/formatters.ts:66-74 | the four statuses get their labels whatever their case, and any other input is returned unchanged |
| Formatters.FormatProofStatusProperties | src/utils/formatters.ts:66-74 | two inputs equal up to case among the known statuses format the same, and formatting twice is formatting once |
| Formatters.LabelsAreNotStatuses | src/utils/formatters.ts:68-71 | no label spells a status case-insensitively, so formatting a label again returns it unchanged |
| Formatters.FormatAddressIncludesParts | src/utils/formatters.ts:86-102 | every non-empty part appears in the joined address |
| Formatters.FormatAddress | src/utils/formatters.ts:86-102 | the address equals a left-to-right reading that skips empty parts and puts ", " before every non-empty part but the first |
| Formatters.SkipEmptyFoldIsJoin | src/utils/formatters.ts:93-101 | that reading of any list of parts equals the ", "-join of its non-empty parts, in order |
| Formatters.FormatAddressExtremes | src/utils/formatters.ts:93-101 | with every part present the five parts are joined by ", " in order; with every part empty the result is empty |
| Formatters.Substring | src/utils/formatters.ts:106 | bounds within the string give that slice, and the result is never longer than the string |
| Formatters.FormatShortAddress | src/utils/formatters.ts:104-107 | a short enough string is unchanged; otherwise, for a limit of at least 3, the first limit − 3 characters followed by "..." with length exactly the limit, and below 3 just "..." |
| Formatters.FormatHash | src/utils/formatters.ts:110-114 | empty stays empty, a hash of at most twice the kept length is unchanged, otherwise it keeps the first and last characters around "..." with length twice the kept length plus 3 |
| Formatters.FormatHashDefault | src/utils/formatters.ts:110 | the kept length defaults to 8: a hash over 16 characters shortens to 19, a shorter one is unchanged |
| Formatters.FormatTransactionHash | src/utils/formatters.ts:116-118 | a transaction hash keeps 6 characters at each end: over 12 characters it shortens to 15, a shorter one is unchanged |
| Formatters.FormatHashIdempotent | src/utils/formatters.ts:110-114 | for every kept length, shortening an already shortened hash changes nothing |
| Formatters.MinutesSeconds | src/components/quiz/QuizTimer.tsx:30-34 | the minutes and two-digit seconds read back to the total |
| QuizSession.NewSession | src/pages/quiz/QuizTaking.tsx:25-31 | a session starts at the first question with one empty answer per question, and a positive duration in minutes becomes that many minutes of countdown in seconds |
| QuizSession.AnsweredCount | src/pages/quiz/QuizTaking.tsx:65 | the count is at most the slot count, equals it exactly when every slot is answered, and is 0 exactly when none is |
| QuizSession.SelectAnswer | src/pages/quiz/QuizTaking.tsx:67-74 | only the current question's answer changes; the index and the other answers are kept |
| QuizSession.SelectAnswerLastWins | src/pages/quiz/QuizTaking.tsx:67-74 | selecting twice on one question keeps the later answer |
| QuizSession.SelectAnswerCount | src/pages/quiz/QuizTaking.tsx:65-74 | answering an empty slot raises the answered count by one, and re-answering leaves it unchanged |
| QuizSession.SelectQuestion | src/pages/quiz/QuizTaking.tsx:76-78 | the index becomes the chosen one with no bounds check, and the answers are kept |
| QuizSession.Previous | src/pages/quiz/QuizTaking.tsx:80-84 | one back exactly when past the first question, otherwise nothing |
| QuizSession.Next | src/pages/quiz/QuizTaking.tsx:86-90 | one on exactly when before the last question, otherwise nothing |
| QuizSession.CanGoPrevious | src/pages/quiz/QuizTaking.tsx:130 | the previous arrow is live exactly when pressing it moves one question back |
| QuizSession.CanGoNext | src/pages/quiz/QuizTaking.tsx:129 | the next arrow is live exactly when pressing it moves one question on, to a question that exists |
| QuizSession.ShowSubmit | src/pages/quiz/QuizTaking.tsx:131 | submit is shown only on the last question, where next no longer moves; inside the list, exactly where next stays put |
| QuizSession.NavigationStaysInRange | src/pages/quiz/QuizTaking.tsx:80-90 | from an index in range, previous and next keep it in range, and submit is offered exactly where next is not |
| QuizSession.NextPreviousInverse | src/pages/quiz/QuizTaking.tsx:80-90 | next then previous returns to the start when next moved, and previous then next likewise |
| QuizSession.CorrectCount | src/pages/quiz/QuizTaking.tsx:107-112 | the count of correct answers is at most the answered count and at most the question count |
| QuizSession.CorrectCountSnoc | src/pages/quiz/QuizTaking.tsx:107-112 | grading one more slot adds one exactly when that slot has a question and holds its correct option; with the empty case this makes the count the number of positions i with answer i equal to Some(key i) |
| QuizSession.TallyCorrect | src/pages/quiz/QuizTaking.tsx:107-112 | the in-order tally of the submit handler, slots past the last question never matching, equals the correct count |
| QuizSession.CorrectCountAllRight | src/pages/quiz/QuizTaking.tsx:107-112 | answering every question correctly counts all of them |
| QuizSession.Score | src/pages/quiz/QuizTaking.tsx:106-114 | a quiz without questions has no score; otherwise the score is the nearest whole percentage, halves up: 2·n·score <= 200·correct + n < 2·n·(score + 1) for n questions; hence at most 100, 0 with no correct answer and 100 with all correct |
| QuizSession.ScoreExtremes | src/pages/quiz/QuizTaking.tsx:106-114 | nothing answered scores 0, and every question answered with its correct option scores 100 |
| QuizTimer.Start | src/components/quiz/QuizTimer.tsx:12 | the remaining time starts at the duration |
| QuizTimer.Tick | src/components/quiz/QuizTimer.tsx:14-25 | while paused or finished nothing happens; at one second or less the time becomes 0 and time-up fires; otherwise it drops by exactly one |
| QuizTimer.StepNonIncreasing | src/components/quiz/QuizTimer.tsx:18-24 | one step never raises the remaining time or makes it negative |
| QuizTimer.RunNonIncreasing | src/components/quiz/QuizTimer.tsx:14-28 | any run of steps never raises the remaining time |
| QuizTimer.TimeUpFiresAtMostOnce | src/components/quiz/QuizTimer.tsx:14-24 | across any run of steps time-up fires at most once, and never for a timer already at 0 |
| QuizTimer.CountdownCompletes | src/components/quiz/QuizTimer.tsx:17-25 | an unpaused timer reaches 0 after as many ticks as it had seconds, firing time-up once |
| QuizTimer.UrgencyOf | src/components/quiz/QuizTimer.tsx:37-38 | critical below 60 seconds, warning from 60 to below 300, calm from 300 |
| QuizTimer.UrgencyMonotone | src/components/quiz/QuizTimer.tsx:37-38 | less time never means less urgency, so critical implies warning |
| QuizTimer.FormatTime | src/components/quiz/QuizTimer.tsx:30-34 | the clock reads as the whole minutes, a colon and the remaining seconds in two digits |
| QuizNavigation.AllAnsweredMeansNoEmptySlot | src/components/quiz/QuizNavigation.tsx:31-32 | all questions answered means the answered count equals the question count and no slot is empty |
| QuizNavigation.SubmitEnabled | src/components/quiz/QuizNavigation.tsx:86-94 | submit is enabled exactly when every question is answered |
| QuizNavigation.WarningShown | src/components/quiz/QuizNavigation.tsx:107-111 | the warning shows exactly when submit is offered and some question is unanswered |
| QuizNavigation.CellStyleOf | src/components/quiz/QuizNavigation.tsx:46-59 | the current question is styled current; any other is answered exactly when its answer is set |
| QuizNavigation.Cells | src/components/quiz/QuizNavigation.tsx:46-65 | one cell per question, each with its number and its style |
| QuizNavigation.GridFacts | src/components/quiz/QuizNavigation.tsx:46-59 | exactly the current cell is styled current, and when every question is answered no cell is open |
| QuizResults.AchievementsUnlocked | src/pages/quiz/QuizResults.tsx:31-34 | two achievements, worth 50 and 25 XP, are unlocked exactly at scores of 80 or more, else none |
| QuizResults.XpEarned | src/pages/quiz/QuizResults.tsx:36 | XP is twice the score plus 75 from achievements at 80 or more |
| QuizResults.XpMonotone | src/pages/quiz/QuizResults.tsx:36 | a higher score never earns less XP |
| QuizResults.BandOf | src/pages/quiz/QuizResults.tsx:71-77 | the band is the first threshold met among 90, 80, 70 and 60 |
| QuizResults.BandMonotone | src/pages/quiz/QuizResults.tsx:71-77 | a higher score never lands in a lower band |
| QuizResults.ScoreMessage | src/pages/quiz/QuizResults.tsx:71-77 | each band has its own message, and scores below 60 get the fallback |
| QuizResults.ScoreColor | src/pages/quiz/QuizResults.tsx:65-69 | green from 90, yellow from 70, red below |
| QuizResults.ShowCertificate | src/pages/quiz/QuizResults.tsx:186 | the certificate is offered exactly when the score is not shown in red, and exactly for the scores whose message is "good" or better |
| QuizResults.ReviewPrevious | src/pages/quiz/QuizResults.tsx:136 | the review index moves back by one, never below 0 |
| QuizResults.ReviewNext | src/pages/quiz/QuizResults.tsx:142 | the review index moves on by one, never past the last question |
| QuizResults.ReviewPagerInRange | src/pages/quiz/QuizResults.tsx:134-146 | the review pager keeps an index in range in range, and previous undoes next |
| QuizHistory.OrderPreorder | src/pages/quiz/QuizHistory.tsx:68-77 | each of the three sort orders is total and transitive |
| QuizHistory.FilteredHistory | src/pages/quiz/QuizHistory.tsx:62-77 | the shown list is a permutation of exactly the items whose title contains the term case-insensitively and whose category matches or is "all", sorted by the chosen order |
| QuizHistory.NoFilterShowsAll | src/pages/quiz/QuizHistory.tsx:62-67 | an empty term with category "all" keeps every item |
| QuizHistory.BestScore | src/pages/quiz/QuizHistory.tsx:82 | the best score of a non-empty history is some attempt's score, and no attempt scores higher |
| QuizHistory.MeanScore | src/pages/quiz/QuizHistory.tsx:80 | the rounded mean of a non-empty history lies between its lowest and highest score and is the sum over the count rounded halves up |
| QuizHistory.HistoryStats | src/pages/quiz/QuizHistory.tsx:79-82 | the count is the number of attempts and the experience total is the sum of every attempt's experience; an empty history has no average and no best; otherwise the best is the highest score, and the average is the sum of scores over the count rounded halves up (2·n·avg <= 2·total + n < 2·n·(avg + 1)), so it lies between the lowest and the highest score |
| QuizHistory.UniformScores | src/pages/quiz/QuizHistory.tsx:79-82 | when every item has the same score, the average and the best are that score |
| QuizHistory.FormatDuration | src/pages/quiz/QuizHistory.tsx:94-98 | the duration reads as the whole minutes, a colon and the remaining seconds in two digits |
| QuizHistory.ScoreColor | src/pages/quiz/QuizHistory.tsx:100-105 | green from 90, blue from 80, yellow from 70, red below, the thresholds checked in that order |
| QuizHistory.RankColor | src/pages/quiz/QuizHistory.tsx:107-112 | a rank containing A is coloured as A, else one containing B as B, else one containing C as C |
| Ordering.AscendingTextPreorder | src/pages/quiz/QuizHistory.tsx:73 | ascending text order is total and transitive |
| Ordering.DescendingPreorder | src/pages/quiz/QuizHistory.tsx:71-75 | descending numeric order is total and transitive |
| ProofHistory.OrderPreorder | src/pages/proofs/ProofHistory.tsx:63-74 | each of the four sort orders is total and transitive |
| ProofHistory.FilteredProofs | src/pages/proofs/ProofHistory.tsx:55-74 | the shown list is a permutation of exactly the proofs whose title or description contains the term case-insensitively and whose status and circuit match their filters or "all", sorted by the chosen order |
| ProofHistory.ClearFilters | src/pages/proofs/ProofHistory.tsx:104-109 | search becomes empty, status and circuit "all", sort "date" |
| ProofHistory.ClearedShowsAll | src/pages/proofs/ProofHistory.tsx:104-109 | after clearing, every proof is shown |
| ProofHistory.CountStatuses | src/pages/proofs/ProofHistory.tsx:76-82 | "all" is the proof count and each status count is the number of proofs with that status |
| ProofHistory.StatusCountsPartition | src/pages/proofs/ProofHistory.tsx:76-82 | verified, pending, generating and failed add up to "all" |
| ProofHistory.CircuitTypes | src/pages/proofs/ProofHistory.tsx:84 | each circuit used by some proof is listed exactly once, nothing else is listed, and there are no more circuits than proofs |
| ProofHistory.SuccessRate | src/pages/proofs/ProofHistory.tsx:230-234 | the rate is shown exactly when some proof passes the filters; it is then the rounded percentage (`Percent`) of verified proofs among ALL proofs (the status counts of lines 76-82), not just the shown ones; at most 100, and 100 when every proof is verified |
| SearchHook.Initial | src/hooks/useSearch.ts:14-30 | the first render has the `initialQuery` and `initialFilters` options as query and filters, page 1, no suggestions shown and empty shown lists, whatever the service holds |
| SearchHook.Mount | src/hooks/useSearch.ts:36-41 | with history enabled, mounting copies the service history and saved searches into the hook; otherwise nothing changes |
| SearchHook.Searched | src/services/search.ts:56-59 | a completed search adds its query to the service history and changes nothing the hook shows |
| SearchHook.TotalPages | src/hooks/useSearch.ts:134 | missing page information means one page |
| SearchHook.NextPage | src/hooks/useSearch.ts:133-138 | the page rises by one exactly when below the last page |
| SearchHook.PreviousPage | src/hooks/useSearch.ts:140-144 | the page drops by one exactly when above 1 |
| SearchHook.GoToPage | src/hooks/useSearch.ts:146-151 | only a page between 1 and the last is accepted; any other is ignored |
| SearchHook.PagerStaysInRange | src/hooks/useSearch.ts:133-151 | from a page in range, every pager step stays in range |
| SearchHook.PageAtLeastOne | src/hooks/useSearch.ts:133-151 | every pager step keeps the page at least 1 |
| SearchHook.UpdateQuery | src/hooks/useSearch.ts:101-104 | the query is replaced and the page reset to 1 |
| SearchHook.UpdateFilters | src/hooks/useSearch.ts:106-109 | the filters are replaced and the page reset to 1 |
| SearchHook.SetField | src/hooks/useSearch.ts:112-115 | only the named filter changes |
| SearchHook.UpdateFilter | src/hooks/useSearch.ts:111-117 | only the named filter changes, and the page is reset to 1 |
| SearchHook.ClearFilters | src/hooks/useSearch.ts:119-122 | no filters remain and the page is reset to 1 |
| SearchHook.ClearSearch | src/hooks/useSearch.ts:124-130 | empty query, no filters, page 1, no suggestions, dropdown hidden |
| SearchHook.UpdatesResetPage | src/hooks/useSearch.ts:101-130 | every query or filter update and both clears leave the page at 1 |
| SearchHook.SelectQueryText | src/hooks/useSearch.ts:162-173 | choosing a suggestion or history entry sets the query, hides the dropdown and resets the page |
| SearchHook.PerformSearch | src/hooks/useSearch.ts:69-83 | the query used is the given one or else the current one; shorter than two characters gives no search; otherwise a first-page request with the given or current filters, and a success records the query in the service history (search.ts:59) and resets the page to 1, leaving the hook's shown history as it was |
| SearchHook.SearchOfType | src/hooks/useSearch.ts:85-98 | the typed searches use the given or current query, the current page, and the current filters with only the type replaced; a success records the query in the service history |
| SearchHook.AutoSearchEnabled | src/hooks/useSearch.ts:47 | the automatic search is on exactly when switched on and the debounced text would itself count as a query |
| SearchHook.AutoSearch | src/hooks/useSearch.ts:44-50 | when enabled, the automatic search asks for the debounced text with the current filters and page, and its success records the text in the service history; otherwise nothing is sent |
| SearchHook.HasQuery | src/hooks/useSearch.ts:217 | a query counts exactly when a search with no argument would be sent |
| SearchHook.HasFilters | src/hooks/useSearch.ts:219 | filters count as active exactly when some value is neither undefined nor empty, which is exactly when they add a parameter to the search link |
| SearchHook.HasFiltersMeansParams | src/hooks/useSearch.ts:219 | filters are active exactly when some value is non-empty, which is exactly when the built parameters carry a filter |
| SearchHook.FilteredHistory | src/hooks/useSearch.ts:230-235 | without a query the first 10 entries; with a query exactly min(matches, 10) entries, the first matches in history order, a match being an entry that contains the query case-insensitively and differs from it |
| SearchHook.FilteredHistoryNoDup | src/hooks/useSearch.ts:230-235 | a duplicate-free history gives a duplicate-free list |
| SearchHook.FilteredSuggestions | src/hooks/useSearch.ts:223-228 | no query gives no suggestions; otherwise exactly the suggestions that contain the query case-insensitively and differ from it, each with its multiplicity in the suggestions |
| SearchHook.FilteredSuggestionsKeepOrder | src/hooks/useSearch.ts:223-228 | the offers keep the suggestions' order: those of a list split in two are the first part's followed by the second's, and one suggestion is offered exactly when it matches |
| SearchHook.RemoveHistoryEntry | src/hooks/useSearch.ts:175-178 | the service drops the entry and the shown history becomes the service's: without the entry, with every other entry the service holds, including queries searched since the last copy |
| SearchHook.ClearHistoryEntries | src/hooks/useSearch.ts:180-183 | the service history and the shown history both become empty and nothing else changes |
| SearchHook.SaveCurrentSearch | src/hooks/useSearch.ts:186-191 | a blank query saves nothing; otherwise the service saves the current query and filters under the name, first, after the old entries without that name, exactly min(their count + 1, 20) entries, and the hook shows the service's list |
| SearchHook.RemoveSavedSearchEntry | src/hooks/useSearch.ts:199-202 | every saved search of that name is removed from the service, the others stay, and the hook shows the service's list |
| SearchHook.RemovalShowsEarlierSearches | src/hooks/useSearch.ts:175-178 | a successful search leaves the shown history unchanged but puts the query in the service history, and the next removal of any other entry brings it into view |
| SearchHook.ServiceHistoryStaysValid | src/services/search.ts:115-144 | every search and history operation keeps the service history free of repeats and within 50 entries, and so does the copy the hook shows after mount or a removal |
| SearchHook.LoadSavedSearch | src/hooks/useSearch.ts:193-197 | the saved query and filters become current and the page is reset to 1 |
| SearchHook.LoadFromParams | src/hooks/useSearch.ts:209-214 | the parsed query and filters become current and the page is reset to 1 |
| SearchHook.LinkRoundTrip | src/hooks/useSearch.ts:205-214 | loading the search's own link restores its query and its filters with empty values dropped |
| Register.Requirements | src/pages/Register.tsx:36-43 | four requirements in display order: length of at least 8, an upper-case letter, a digit, a non-alphanumeric character |
| Register.Strength | src/pages/Register.tsx:27-34 | a multiple of 25 up to 100; 100 exactly when all four criteria hold, 0 exactly when none does |
| Register.StrengthCountsRequirements | src/pages/Register.tsx:27-43 | the meter is 25 times the number of requirements shown as met |
| Register.AlnumPasswordNotStrong | src/pages/Register.tsx:29-32 | a password of letters and digits only is never rated strong |
| Register.LabelOf | src/pages/Register.tsx:227 | Strong at 100, Good from 75, Fair from 50, Weak below |
| Register.LabelByRequirementsMet | src/pages/Register.tsx:227 | Strong means four requirements met, Good three, Fair two, Weak at most one |
| Register.Validate | src/pages/Register.tsx:45-72 | no field other than the four has an error, and each has one exactly when its check fails: email by the pattern, password below full strength, confirmation empty or different, terms not accepted; the message is the email check's, "Password is required" or "Password must meet all requirements", "Please confirm your password" or "Passwords do not match", and "You must agree to the Terms of Service" |
| Register.PasswordError | src/pages/Register.tsx:54-58 | no message exactly at full strength; "Password is required" when empty and "Password must meet all requirements" otherwise |
| Register.ConfirmError | src/pages/Register.tsx:60-64 | no message exactly when the confirmation is non-empty and repeats the password; "Please confirm your password" when empty, "Passwords do not match" otherwise |
| Register.TermsError | src/pages/Register.tsx:66-68 | a message exactly when the terms are not accepted |
| Register.ValidIff | src/pages/Register.tsx:45-71 | the form is valid exactly when the email passes, the password is at full strength, the confirmation repeats it and the terms are accepted |
| Register.HandleChange | src/pages/Register.tsx:107-113 | only the named field takes the new value and only that field's error is blanked; the error keys stay |
| Register.ChangesCommute | src/pages/Register.tsx:107-113 | edits to different fields commute |
| Login.Validate | src/pages/Login.tsx:23-40 | the email errs exactly when it fails the pattern, with the email check's message ("Email is required" when empty), and the password exactly when shorter than 8, with "Password is required" when empty and the length message otherwise |
| Login.ValidIff | src/pages/Login.tsx:23-39 | sign-in proceeds exactly when the email passes and the password has at least 8 characters |
| Login.HandleChange | src/pages/Login.tsx:75-81 | only the named field takes the new value and only that field's error is blanked; the error keys stay |
| FormErrors.EmailError | src/pages/Login.tsx:26-30 | "required" for an empty email, "invalid" when the pattern fails, and no error exactly when it passes |
| FormErrors.ClearFieldError | src/pages/Login.tsx:78-80 | the edited field's error becomes empty; other errors and the key set are kept |
| FormErrors.ClearFieldErrorCommutes | src/pages/Register.tsx:109-112 | clearing two fields in either order gives the same errors |
| Text.LooksLikeEmailIsPattern | src/pages/Register.tsx:50 | the decided email test agrees on every string with `\S+@\S+\.\S+` found anywhere in it |
| Numbers.RoundDiv | src/services/fileUpload.ts:52 | the result is the nearest integer to a / b, halves rounded up |
| Numbers.Percent | src/services/fileUpload.ts:52 | the nearest whole percentage, halves up: 2·whole·r <= 200·part + whole < 2·whole·(r + 1); so a share of at most the whole is at most 100, the whole is 100 and nothing is 0 |

## Left out

- Storage: `localStorage` reads and writes and `JSON.parse`/`JSON.stringify` are foreign calls. A read is a `Stored<T>` value: missing, unreadable, or parsed. Writes are not modelled.
- Network: the HTTP calls behind `search`, suggestions, popular searches, quiz, proof and user searches, and the POST inside `uploadFile` are out. Each upload is one abstract `Outcome`: stored, or failed with a message. `uploadSingleFile` and `uploadAvatar` are not modelled.
- Browser APIs are out: notification permission, browser notifications, the clipboard, `navigator.share`, image resizing and preview URLs.
- Timers: `setTimeout`/`setInterval` become explicit events (a tick, a timer firing) and pending-timer fields. Left out are:
  - the search debounce delay;
  - the quiz auto-save interval, the time-up toast and the two-second submit delay;
  - the achievements toast.
- Real WebSocket objects are out. The socket is a ready-state enumeration.
  - Open and close events carry whether they come from the socket held now. A socket replaced by a later `connect`, or dropped by `disconnect`, keeps its handlers, so its close still reports and reconnects.
  - The service's scheduled reconnect calls `connect` without a token, as the source does.
- Per-event progress states inside the hook's upload are out. Only the start and end states are modelled.
- Floating point: `Math.round(100 * a / b)` is computed on exact rationals. Ties at an exact half round up. A float that lands just below a half is not reproduced.
- Text: lower-casing covers ASCII letters only. Lengths count characters, not UTF-16 code units. `localeCompare` is code-point lexicographic order. Dates are integer timestamps.
- URLs: percent-encoding (the WHATWG URL Standard, section 5, application/x-www-form-urlencoded) is out. Query strings are ordered key/value lists. The filter keys of `buildSearchUrl` come in a fixed order, not `Object.entries` order.
- QuizResults.XpEarned: the score is an integer, so `parseInt` of a malformed score (NaN) and fractional scores are not modelled.
- QuizHistory.HistoryStats: the average and best of an empty list are absent (`None`); the source would divide by zero or take the maximum of nothing.
- QuizSession.Score: with no questions the score is absent (`None`); the source computes 0/0 and gets `NaN`.
- UploadHook.UploadFiles: the `onSuccess` and `onError` callbacks are not called as effects. The returned `Attempts` says which one runs: `Returned(rs)` calls `onSuccess(rs[0])` and resolves to `rs`; `Threw(m)` calls `onError` and rejects with `m`.
- Formatters: seconds are natural numbers, so negative durations are not modelled. `formatFileSize`, `formatBytes`, `formatXP`, `formatAnalyticsValue`, `formatLevel`, `formatCurrency` and `formatNextBilling` are left out: they use logarithms, fixed-point rendering, `Intl` or the current date.
- The share, download and export buttons of the quiz pages are out: clipboard and file downloads.
- The mock quiz and proof lists of the pages are parameters, not literals.
- Presentation-only components and pages are out, and so are the schema validators in `src/utils/validators.ts`, a wrapper over a schema library.
- `useNotifications.ts` is out: it only forwards to the notification service.
