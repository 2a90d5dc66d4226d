# RAR password brute-force service: search task and WebSocket relay

This project is a Dafny model of two parts of a small web service that
recovers the password of a RAR archive by brute force.

The first part is the background task `bruteforce_rar_task`. It enumerates
every string of length 1 up to `max_length` over a charset, shortest first
and in `itertools.product` order within one length. It tests each string
against the archive. While it runs it sends throttled progress
notifications and writes the percentage to the task table. It ends in one
of three ways:
- it completes the task with the first accepted password;
- it fails the task with "Password not found" once every candidate is rejected;
- it fails the task and re-raises when the archive check itself raises.

The second part is the `WebSocketManager`. It keeps a registry from task id
to client sockets and one pub/sub channel `ws:<task_id>` per task with
clients. Its listener forwards each `{task_id, message}` envelope to the
sockets of the task and removes the sockets whose send fails. After a
connection error it resubscribes to every tracked channel.
`send_message_via_redis` publishes those envelopes.

Modules:
- `Enumeration`: the candidate sequence. It proves the sequence's size, its
  order, and that every word over the charset appears in it, at a known
  index.
- `TaskStore`: the task table and the four helpers `update_task_progress`,
  `complete_task`, `fail_task` and `get_task_status`, as functions on a map.
- `Bruteforce`: the task as a method with its two loops. It is proved
  against a specification of the search outcome, of the candidates tested,
  of the notification log and of the final store.
- `Relay`: JSON values, the channel name, the task id read back from a
  channel, the listener's routing check and the published envelope.
- `WebSocketManager`: the manager as a class. `active_connections`, the
  subscribed channels, the initialised and listening flags, and a log of
  what was done to client sockets are fields that its methods update.
- `Arith` and `Wrappers`: arithmetic helper lemmas and `Option`.

Outside effects are inputs to the operations:
- the archive check is a function from candidate to verdict (accept, reject, or an error with its text);
- the wall clock is a function from the number of candidates tested so far to a time;
- whether a ping, subscribe, unsubscribe, publish or socket send succeeds is a flag or a set of failing sockets.

Notifications, database writes and socket actions are values the
operations return or append to a log.

Three behaviours of the code that a reader might not expect:
- An exhausted search fails the task with "Password not found"; it does not
  complete it with an empty result.
- For charset "ab", maximum length 2 and password "ba", the code tests five
  candidates: "a", "b", "aa", "ab" and "ba", since all words of length 1 come
  first. `Bruteforce.ExampleFoundFifth` states this count.
- A progress write of 100 marks the row "completed" before the search has
  decided anything.

## Model

| member | source | states |
|---|---|---|
| Enumeration.Total | app/services/bruteforce.py:29 | the size of the search space; its properties are stated by `TotalZeroIff`, `TotalMonotone` and `CandidatesLength` |
| Enumeration.Product | app/services/bruteforce.py:36-37 | one length's block in `itertools.product` order; stated by `ProductLength`, `ProductWords`, `ProductAtRank`, `RankAtMost` and `LexBeforeRank` |
| Enumeration.Candidates | app/services/bruteforce.py:35-37 | every candidate in the order tested; stated by `CandidatesLength`, `CandidatesBlocks`, `CandidateAtPosition`, `CandidateShape`, `PositionOrder` and `LengthsAscend` |
| Enumeration.TotalZeroIff | app/services/bruteforce.py:29 | the search space is empty exactly when the charset is empty or `max_length` is below 1 |
| Enumeration.TotalMonotone | app/services/bruteforce.py:29 | a larger maximum length never gives a smaller search space |
| Enumeration.CandidatesLength | app/services/bruteforce.py:29-37 | the sequence of candidates has exactly `total` entries |
| Enumeration.ProductLength | app/services/bruteforce.py:36 | `product(charset, repeat=l)` yields n^l strings, n the charset size |
| Enumeration.ProductWords | app/services/bruteforce.py:36-37 | every string of one length's block has that length and uses only charset characters |
| Enumeration.PrependSplit | app/services/bruteforce.py:36 | each entry of one level of the product is one charset character in front of one shorter tuple, at index character-position times tail-count plus tail index |
| Enumeration.PrependAt | app/services/bruteforce.py:36 | conversely, character `i` in front of tail `r` sits at exactly that index |
| Enumeration.ProductAtRank | app/services/bruteforce.py:36-37 | every word of length `l` over the charset appears in the length-`l` block, at the index given by its characters' charset positions |
| Enumeration.RankBound | app/services/bruteforce.py:36 | that index is below n^l, n the charset size |
| Enumeration.RankAtMost | app/services/bruteforce.py:36 | the index computed for the word at entry `k` is at most `k` (it is the word's first occurrence, even with repeated charset characters) |
| Enumeration.LexBeforeRank | app/services/bruteforce.py:36 | within one length, a word lexicographically smaller by charset position is generated earlier |
| Enumeration.CandidatesPrefix | app/services/bruteforce.py:35-37 | the candidates for a smaller maximum length are a prefix of those for a larger one |
| Enumeration.CandidateInBlock | app/services/bruteforce.py:35-38 | entry `j` of length `l` is tested as candidate number `total(l-1) + j + 1` |
| Enumeration.CandidatesBlocks | app/services/bruteforce.py:35-37 | the candidates are the blocks of lengths 1 to `max_length`, one after the other |
| Enumeration.CandidateAtPosition | app/services/bruteforce.py:35-37 | every word of length 1 to `max_length` over the charset is a candidate, at a computed index |
| Enumeration.CandidateShape | app/services/bruteforce.py:35-37 | every candidate is a word over the charset of length 1 to `max_length`, no later than its own computed index |
| Enumeration.PositionOrder | app/services/bruteforce.py:35-37 | shorter words come first; within one length the order is lexicographic by charset position |
| Enumeration.LengthsAscend | app/services/bruteforce.py:35 | candidate lengths never decrease along the search |
| TaskStore.InsertTask | app/api/routes.py:16-34 | a fresh row is running with progress 0 and no result, and other rows are untouched |
| TaskStore.StatusAfterInsert | app/api/routes.py:26-34 | an unknown id reads as `None`; a fresh task reads as running, 0, no result |
| TaskStore.UpdateTaskProgress | app/services/bruteforce.py:98-104 | `update_task_progress`; stated by `StatusAfterProgress`, `OtherTasksUnaffected`, `ProgressStaysInRange` and `LastProgressWins` |
| TaskStore.CompleteTask | app/services/bruteforce.py:106-115 | `complete_task`; stated by `StatusAfterComplete`, `OtherTasksUnaffected` and `CompleteAbsorbsProgress` |
| TaskStore.FailTask | app/services/bruteforce.py:117-125 | `fail_task`; stated by `StatusAfterFail`, `OtherTasksUnaffected` and `FailAbsorbsProgress` |
| TaskStore.GetTaskStatus | app/services/bruteforce.py:128-140 | `get_task_status`; every `StatusAfter...` lemma states what it returns after one write |
| TaskStore.StatusAfterProgress | app/services/bruteforce.py:98-104 | after `update_task_progress` the row reads the new progress, running below 100 and completed from 100, with the result kept; an unknown id stays unknown |
| TaskStore.StatusAfterComplete | app/services/bruteforce.py:106-115 | after `complete_task` the row reads completed, 100, with the password as result |
| TaskStore.StatusAfterFail | app/services/bruteforce.py:117-125 | after `fail_task` the row reads failed, 100, with its result unchanged |
| TaskStore.OtherTasksUnaffected | app/services/bruteforce.py:98-125 | no helper changes what `get_task_status` returns for another id |
| TaskStore.ProgressStaysInRange | app/services/bruteforce.py:98-125 | every helper keeps stored progress within 0 to 100 |
| TaskStore.ApplyProgress | app/services/bruteforce.py:54 | a run of progress writes keeps the set of rows |
| TaskStore.ProgressKeepsResult | app/services/bruteforce.py:98-104 | progress writes change a row's status and progress only |
| TaskStore.ProgressKeepsOthers | app/services/bruteforce.py:98-104 | progress writes for one task leave every other row as it was |
| TaskStore.LastProgressWins | app/services/bruteforce.py:98-104 | after progress writes the row holds the last value written, with the status for it and the result as before |
| TaskStore.FailAbsorbsProgress | app/services/bruteforce.py:117-125 | `fail_task` leaves the same table whatever progress writes came before it |
| TaskStore.CompleteAbsorbsProgress | app/services/bruteforce.py:106-115 | `complete_task` leaves the same table whatever progress writes came before it |
| Bruteforce.SearchOutcome | app/services/bruteforce.py:59-95 | the specified outcome of the search; stated by `FoundIsFirstAccepted`, `RaisedIsFirstError` and `NotFoundIffAllRejected`, and met by `BruteforceRarTask` |
| Bruteforce.FirstDecisive | app/services/bruteforce.py:59-64 | the search stops at the first candidate the check does not reject: all before it are rejected, and it is not |
| Bruteforce.Tested | app/services/bruteforce.py:35-64 | the number of candidates tested is at most `total`, and at least 1 when `total` is positive |
| Bruteforce.DecisiveIsEarliest | app/services/bruteforce.py:35-64 | the candidate that stops the search is a word over the charset of length 1 to `max_length`, and every shorter or lexicographically earlier word was rejected |
| Bruteforce.FoundIsFirstAccepted | app/services/bruteforce.py:59-74 | a found password is accepted by the check, lies in the search space, and every word tested before it was rejected |
| Bruteforce.RaisedIsFirstError | app/services/bruteforce.py:86-95 | a raised error comes from the check on a word of the search space, and every word before it was rejected |
| Bruteforce.NotFoundIffAllRejected | app/services/bruteforce.py:75-84 | the task ends without a password exactly when the check rejects every word of length 1 to `max_length` over the charset |
| Bruteforce.ExampleWordsOfOne | app/services/bruteforce.py:36-37 | the length-1 block for "ab" is "a", "b" |
| Bruteforce.ExampleWordsOfTwo | app/services/bruteforce.py:36-37 | the length-2 block for "ab" is "aa", "ab", "ba", "bb" |
| Bruteforce.ExampleFoundFifth | app/services/bruteforce.py:35-64 | for "ab", length 2 and password "ba", the candidates are a, b, aa, ab, ba, bb, and the search finds "ba" after testing five |
| Bruteforce.Tick | app/services/bruteforce.py:38-57 | the throttle for one candidate; stated by `AppendKeepsOrder`, `WidenOrder` and `TickKeepsOrder` |
| Bruteforce.ReporterAfter | app/services/bruteforce.py:30-57 | the reporter after the first `n` candidates; stated by `ReportsIncrease` and `LastReportFits`, and tracked by `ReportProgress`, `SearchLength` and `SearchAll` |
| Bruteforce.Percent | app/services/bruteforce.py:42 | the integer percentage lies in 0 to 100 |
| Bruteforce.PercentMonotone | app/services/bruteforce.py:42 | the percentage never decreases as more candidates are tested |
| Bruteforce.PercentFull | app/services/bruteforce.py:42 | the percentage is 100 exactly at the last candidate |
| Bruteforce.WidenFit | app/services/bruteforce.py:41-57 | reports made over the first candidates still fit after one more candidate |
| Bruteforce.WidenOrder | app/services/bruteforce.py:41-57 | a pass that reports nothing keeps the reporter's invariant |
| Bruteforce.AppendFit | app/services/bruteforce.py:41-57 | appending a report that fits keeps all reports fitting |
| Bruteforce.AppendIncreasing | app/services/bruteforce.py:43 | appending a report beyond the last one keeps percentages and counts strictly increasing |
| Bruteforce.AppendSpaced | app/services/bruteforce.py:41 | appending a report a second or more after the last one keeps the reports a second apart |
| Bruteforce.AppendKeepsOrder | app/services/bruteforce.py:41-57 | a pass that reports keeps the reporter's invariant |
| Bruteforce.TickKeepsOrder | app/services/bruteforce.py:38-57 | each tested candidate keeps the reporter's invariant |
| Bruteforce.ReportsIncrease | app/services/bruteforce.py:41-57 | every report belongs to a tested candidate and carries its percentage, between 1 and 100; percentages and counts strictly increase; reports are at least a second apart and after the start; the counters hold the last report |
| Bruteforce.ReportsAsEvents | app/services/bruteforce.py:45-54 | each report is one PROGRESS event and one progress write, in the same order |
| Bruteforce.LastReportFits | app/services/bruteforce.py:42-57 | the last report's percentage lies in 1 to 100, and is 100 only once every candidate has been generated |
| Bruteforce.StatusWhileSearching | app/services/bruteforce.py:41-57 | during the search the status query shows the task with no result and progress in 0 to 100; it is never failed, and it reads completed only at progress 100 and only after the last candidate |
| Bruteforce.StatusWhenDone | app/services/bruteforce.py:66-95 | after the task the status query shows progress 100 and either completed with the password or failed with no result, whatever progress was written before |
| Bruteforce.ReportProgress | app/services/bruteforce.py:39-57 | one throttled progress step moves the counters, the event log and the table from the state after `n - 1` candidates to the state after `n` |
| Bruteforce.SearchLength | app/services/bruteforce.py:36-61 | the inner loop tests one length's block in order, stops at the first candidate not rejected and returns its verdict, and otherwise finishes the block; the counters, log and table keep tracking the candidates tested |
| Bruteforce.SearchAll | app/services/bruteforce.py:30-64 | the outer loop tests exactly the candidates up to and including the first not rejected, or all of them; it returns that verdict and keeps the same tracking |
| Bruteforce.BruteforceRarTask | app/services/bruteforce.py:15-95 | the outcome is the specified search outcome; the candidates tested are the prefix up to the first decisive one; the log is STARTED, then one PROGRESS per report, then COMPLETED or FAILED; the table is written once more by `complete_task` or `fail_task` |
| Bruteforce.BruteforceAsWritten | app/services/bruteforce.py:16-26 | the task as written, which raises at its first notification; stated by `ExampleAsWrittenRaises` |
| Bruteforce.ExampleAsWrittenRaises | app/services/bruteforce.py:20-26 | as written the task raises on its first notification: for "ab", length 2 and password "ba" it tests nothing and leaves the row running at 0, where the intended search finds "ba" |
| Relay.LastSegment | app/websocket/manager.py:96 | `split(':')[-1]` is the longest colon-free suffix, starting right after the last colon when there is one |
| Relay.ChannelName | app/websocket/manager.py:39-40 | `ws:<task_id>`; stated by `ChannelRoundTrip` and `ChannelNameInjective` |
| Relay.TaskIdFromChannel | app/websocket/manager.py:96 | the task id read back from a channel; stated by `LastSegment`, `ChannelRoundTrip` and `ColonTaskIdReadBackShort` |
| Relay.Envelope | app/websocket/manager.py:178-181 | the published payload; stated by `EnvelopeRoundTrip`, `ColonTaskIdDropped` and `Manager.SendMessageViaRedis` |
| Relay.Route | app/websocket/manager.py:98-108 | the listener's check; stated by `RoutedNamesOwnTask`, `EnvelopeRoundTrip`, `ColonTaskIdDropped` and `Manager.Relay` |
| Relay.RoutedNamesOwnTask | app/websocket/manager.py:98-108 | a message forwarded on the channel of a colon-free task id has a `task_id` field naming that task and a truthy `message` field, and that field is what is forwarded |
| Relay.ChannelRoundTrip | app/websocket/manager.py:96 | the listener reads back a task id with no colon from its channel name |
| Relay.ChannelNameInjective | app/websocket/manager.py:39-40 | different task ids have different channels |
| Relay.ColonTaskIdReadBackShort | app/websocket/manager.py:96 | the channel of task id "a:b" is read back as "b" |
| Relay.EnvelopeRoundTrip | app/websocket/manager.py:176-184 | an envelope published on its own task's channel is forwarded unchanged exactly when its content is non-empty |
| Relay.ColonTaskIdDropped | app/websocket/manager.py:176-184 | an envelope for task id "a:b" is dropped whatever its content |
| WebSocketManager.Sends | app/websocket/manager.py:116-118 | one `send_json` of the message per socket, in snapshot order |
| WebSocketManager.SendsAppend | app/websocket/manager.py:116-118 | one more socket adds one send at the end |
| WebSocketManager.Failures | app/websocket/manager.py:115-124 | `disconnected_clients` holds exactly the snapshot's sockets whose send failed |
| WebSocketManager.FailuresDistinct | app/websocket/manager.py:115-124 | `disconnected_clients` has no duplicates |
| WebSocketManager.BrokenOfSnapshot | app/websocket/manager.py:127-129 | only failed sockets that are still registered change the registry |
| WebSocketManager.Snapshot | app/websocket/manager.py:116 | `list(set)` holds each socket of the set exactly once |
| WebSocketManager.Keys | app/websocket/manager.py:153 | `list(keys())` holds each tracked task id exactly once |
| WebSocketManager.SubscribeEach | app/websocket/manager.py:154-157 | the channels are subscribed in order until one fails: the result is exactly the channels of the task ids before the first failure; all succeed exactly when every subscription succeeds, and then every channel is subscribed |
| WebSocketManager.Manager.constructor | app/websocket/manager.py:12-18 | no sockets, no channels, not initialised, not listening |
| WebSocketManager.Manager.Initialize | app/websocket/manager.py:21-37 | the first call succeeds exactly when the ping does and then starts the listener with no channels; later calls change nothing |
| WebSocketManager.Manager.Connect | app/websocket/manager.py:42-62 | uninitialised: close 1011 and nothing else; a task that has sockets gets the new one; a task without sockets subscribes its channel and registers the socket, or on a failed subscription closes it with 1011 and leaves the task mapped to an empty set |
| WebSocketManager.Manager.Disconnect | app/websocket/manager.py:64-78 | an unknown task id is a no-op; a socket missing from a known task is a `KeyError` that changes nothing; otherwise the socket is removed and, when the set empties, the task id is dropped and its channel unsubscribed if that succeeds |
| WebSocketManager.Manager.RemoveFailed | app/websocket/manager.py:126-129 | disconnecting the failed sockets one by one equals removing them all at once, with one unsubscribe if the set empties |
| WebSocketManager.Manager.FanOut | app/websocket/manager.py:116-124 | every socket of the snapshot is sent the message, in order, whatever each send's outcome |
| WebSocketManager.Manager.Relay | app/websocket/manager.py:89-133 | a message is delivered when `Route` accepts it and the task is tracked; then every socket registered at that moment is sent it once, and the ones that failed are removed; otherwise nothing changes |
| WebSocketManager.Manager.Reconnect | app/websocket/manager.py:145-160 | with a client, the tracked tasks' channels are resubscribed in order up to the first failure, and the fresh pub/sub holds exactly the channels before it; the listener keeps running exactly when all subscriptions succeed; without a client the listener stops |
| WebSocketManager.Manager.SendMessageViaRedis | app/websocket/manager.py:166-191 | without a client nothing is published; otherwise, unless the publish fails, the envelope goes to the task's channel, and the listener forwards it exactly when the content is non-empty |

The lemmas `Enumeration.RankCons`, `TaskStore.ApplyProgressAppend`,
`Bruteforce.OutcomeWhenDecided`, `Bruteforce.OutcomeWhenExhausted` and
`Bruteforce.ReportsAppend` unfold one definition each. They are proof helpers
and state nothing about the system by themselves.

Every method of `WebSocketManager.Manager` keeps `Valid()`: before
initialisation nothing is registered, subscribed or listening, and while the
listener runs every task with a socket has its channel subscribed.

## Findings

| source | as written | input that shows it | evidently intended | confidence | as-written member | corrected member |
|---|---|---|---|---|---|---|
| app/services/bruteforce.py:20-26 | every notification calls `ws_manager.send_message`, but `WebSocketManager` defines only `send_message_via_redis`, so the first call, before the `try`, raises `AttributeError` | any call; for example charset "ab", `max_length` 2, password "ba" | notifications are delivered and the search runs | high, not executed | Bruteforce.ExampleAsWrittenRaises | Bruteforce.BruteforceRarTask |

`Bruteforce.BruteforceAsWritten` models the task as written. In the rest of
the model each notification is an event appended to the task's log.

## Left out

- Bruteforce.BruteforceRarTask: treats each notification as delivered, as in the corrected row under Findings.
- Bruteforce.Percent: the source computes `int((processed / total) * 100)` in floating point; the model uses exact integer division, which can differ from it by one for some `processed` and `total`.
- Bruteforce.BruteforceRarTask: `complete_task.delay` and `fail_task.delay` are applied at once, in order; Celery queueing, retries and worker scheduling are left out.
- Bruteforce.BruteforceRarTask: an exception from the progress write or a notification inside the `try` is not modelled; only the archive check can raise.
- The archive check (`check_rar_password`, in `app/services/rar_tools.py`) is an oracle; its file handling is not part of this model.
- The wall clock is an input function. `start_time`, `elapsed_time` and `combinations_per_second` are left out of the events.
- Bruteforce.BruteforceRarTask: the clock is unconstrained, but the ZeroDivisionError of `combinations_per_second` (app/services/bruteforce.py:50) is not modelled. That error happens when a report comes at a reading equal to `start_time`, and it would take the failure path at app/services/bruteforce.py:86-95. The model reports normally there.
- The event payload fields `task_id`, `hash_type` and the wire keys are left out of `Event`; each event keeps the values the model reasons about.
- Logging and the asyncio machinery (`await`, `asyncio.sleep`, task creation and cancellation) are left out; each operation runs to completion.
- The Redis URL, the client object and `get_message` polling are left out; one pass of the listener receives a channel and a decoded payload.
- WebSocketManager.Manager.Relay: a channel or payload that is not valid UTF-8 or not valid JSON arrives as `None` and is dropped; the generic `except Exception` retry at app/websocket/manager.py:161-163 is not modelled separately.
- Relay.Json: JSON numbers are integers; floats are left out.
- WebSocketManager.Manager.SendMessageViaRedis: the `TypeError` of a content that cannot be serialised does not arise, because every `Json` value serialises; a publish failure is the `publishOk` flag.
- WebSocketManager.Manager.Reconnect: a failed resubscription raises out of the `except` handler and ends the listener task; the model records this as the listener stopping, with the channels subscribed before the failure.
- The submission endpoint is modelled only by the row `TaskStore.InsertTask` adds (app/api/routes.py:26-34); the file upload and the Celery dispatch are left out.
- Concurrency between the listener, `connect` and `disconnect` is not modelled; each method runs alone.
