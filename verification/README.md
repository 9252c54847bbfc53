# Verified model of the server library

A Dafny model of the stateful cores of a small C++ server library, with proofs about every run,
history or input of each:

- the HTTP pipeline: `http_connection`, the shared bounded request queue and the worker pool, with
  workers first as mere takers of requests and then as threads asleep in `wait_and_pop`;
- `thread_safe_queue`, as an accounting object and as a monitor with a condition variable;
- `leaderboard`, its two structures and its save file;
- `rate_limiter`;
- the WebSocket write queue, `nameboard` and `parse_query`.

`dafny verify dfyconfig.toml` checks the whole project.

## How the model is built

Code that updates fields in place is a class (`ThreadSafeQueue.Queue`, `HttpConnection.Connection`,
`LeaderboardClass.Table`, `RateLimiter.Limiter`, `WebsocketSession.WebsocketConnection`,
`Nameboard.Names`) or a method with a loop (`RequestServer.WorkerLoop`, `QueryParser.ParseQuery`).
Each method is proved to compute a function on values, its specification, and everything about runs
is proved of those functions. A run is a sequence of steps; every result that mentions a run holds
for all of them.

- **HTTP pipeline.** Any number of connections and any number of workers. A step is a connection, a
  read or write completion (success or error), a worker taking or finishing a request, one posted
  handler, or stopping the queue. Posted handlers run in any order, and a completion may succeed
  even after the socket was closed, so the runs include all those of the strand and the sockets.
  `written` are the responses whose write succeeded.
- **Worker pool.** The pipeline and the queue's monitor as one system that shares the queue: a
  worker has to enter `wait_and_pop`, may be asleep in it, and leaves its loop on an empty result.
- **Queue.** `size_t` arithmetic wraps at 2^64; the two template flags are parameters. In the monitor
  a critical section is one step and a notification a separate later step; sleepers may wake
  spuriously.
- **Leaderboard.** Scores are reals, which order-embed the score types of the library (a NaN score
  is not modelled). The clock is an arbitrary input. When a listed player submits again, the
  comparison reads a `timestamp` and an `id` that were never set: they are arbitrary inputs too.
- **Rate limiter.** Doubles are reals and the steady clock is a parameter that never goes back.

## Where the code and its promises differ

- `leaderboard::load` builds its ranking with the default comparator, so a lowest-first board comes
  back highest-first. Which saved rankings survive: `LeaderboardReload.ReloadKeepsRankingIff`. Which
  boards still behave the same on histories in which no id decides a resubmission: the highest-first
  ones and no others, not even an empty lowest-first board (`LeaderboardReload.ReloadIsInvisibleIff`). An
  input: `LeaderboardReload.TwoScoresComeBackReversed`.
- `leaderboard::load` also numbers the entries anew, and a repeated score can be decided by an id
  (`LeaderboardReload.RenumberedBoardDiffers`). Which boards behave the same on all histories:
  `LeaderboardReload.ReloadIsInvisibleAlwaysIff`.
- The comment on `leaderboard` says that a listed player is updated only when the new score improves
  their ranking. An equal score can be accepted, because the comparison reads fields that were never
  set, and then lowers the rank: `Leaderboard.EqualScoreLowersRank`, and exactly when in
  `Leaderboard.ResubmissionLowersIff`, and when a caller has to expect it in `Leaderboard.MayLowerIff`.
- Ties on the leaderboard are ordered by time, yet the player who reached a score first can lose the
  place to one who reached it later, by repeating the score: `LeaderboardTies.RepeatingLosesThePlace`, and
  exactly for which boards in `LeaderboardTies.FirstComeFirstServedIff`.
- `thread_safe_queue::replace` never notifies. It can leave a consumer asleep beside an item
  (`QueueMonitor.ReplaceLosesAWakeUp`); exactly when in `QueueMonitor.ReplaceLosesWakeUpIff`.
- `replace` ignores the byte limit: `QueueAccounting.ReplaceBreaksByteLimit`; exactly which operations
  keep the limits in `QueueAccounting.StepKeepsLimitsExactly`.
- With `maximum_bytes` 0 pushes and pops do not count bytes but `replace` does, so the counter is that of
  the last replacement: `QueueAccounting.CounterIsLastReplaced`. The configurations in which it always
  agrees with the contents: `QueueAccounting.CounterAgreesIff`.
- `nameboard::add_name` documents its result as the ranking position; when an old name is evicted it
  is one more than that: `Nameboard.FullBoardReturnsOneMore`, and exactly when in
  `Nameboard.AddNameKeepsGood`.
- `nameboard` keeps names unique, but `load` does not look for repeated ones: `Nameboard.LoadIsGoodIff`.
- A rate limiter whose idle limit is too short hands out more than its budget:
  `RateLimiterGuarantees.BudgetHoldsIff`. Such a cleanup also changes decisions:
  `RateLimiterGuarantees.CleanupInvisibleIff`. The defaults are safe.
- `wait_and_pop` documents an exception when the queue is stopped; the code returns an empty result
  once the queue is empty, and the model follows the code: `ThreadSafeQueue.Queue.WaitAndPop` for one
  call, `QueueMonitor.FifoDrain` for every run.

## Model

| member | source | states |
|---|---|---|
| `HttpGuarantees.EveryRequestInOnePlace` | src/network/communication/http_connection.hpp:60-171 | In every interleaving each id a connection has read is in exactly one place: shared queue, a worker, a posted handler, the response store, or already written; nothing else carries that id with another request or response. |
| `HttpGuarantees.ResponsesInRequestOrder` | src/network/communication/http_connection.hpp:133-171 | The responses a client receives are, without gap, repetition or cross-connection delivery, the ones workers returned for its requests 0, 1, 2, ..., the last possibly an overload 503 (section 9.3.2 of RFC 9112). |
| `HttpGuarantees.OneWriteAtATime` | src/network/communication/http_connection.hpp:65-70 | Between handlers, not writing means the next owed response is not stored; writing on an open connection means exactly one outstanding write, of that response. |
| `HttpGuarantees.LastWords` | src/network/communication/http_connection.hpp:75-127 | After a response that does not keep the connection alive nothing is ever written there (section 9.6 of RFC 9112); after a rejection nothing is ever read, so the 503 has the largest id. |
| `HttpGuarantees.ReadingIff` | src/network/communication/http_connection.hpp:96-131 | In every run a connection has a read outstanding exactly until a request of it is rejected or a read of it fails: after every accepted request it reads on. |
| `HttpGuarantees.OpenIff` | src/network/communication/http_connection.hpp:102-176 | In every run a connection is open exactly until a read or a write of it fails or a response that does not keep it alive has been written. |
| `HttpGuarantees.ReadRejectedIff` | src/network/communication/http_connection.hpp:107-126 | A request read is rejected exactly when the queue is stopped, full, or has too few bytes left for its body; otherwise it joins the end of the queue. |
| `HttpGuarantees.RejectionCloses` | src/network/communication/http_connection.hpp:75-94 | A rejected connection has a 503 that does not keep it alive as the response to its last request, and is closed once that is written. |
| `HttpGuarantees.IdleMeansAnswered` | src/network/communication/http_connection.hpp:133-171 | When queue, workers, posted handlers and writes are idle, every open connection has answered everything it read and stores nothing. |
| `HttpGuarantees.UnbrokenIsAnswered` | src/network/communication/http_connection.hpp:133-171 | When the server is idle after any run, a connection none of whose reads and writes failed, closed or not, has been answered in full or up to a response that does not keep it alive. |
| `HttpGuarantees.BusyServerCanStep` | src/network/servers/request_server_base.hpp:94-103 | With at least one worker, a server that is not idle always has a step other than a read completion enabled. |
| `HttpGuarantees.StepDecreases` | src/network/communication/http_connection.hpp:60-171 | Every step that admits no work strictly decreases a weighted count of queued, processed, posted, stored and in-flight responses. |
| `HttpGuarantees.ServerDrains` | src/network/servers/request_server_base.hpp:94-103 | After any run, work in progress ends within that count of steps in whatever order, and a run that cannot go on has answered every request of every open connection, and every connection without a failed read or write in full or up to a response that ended it. |
| `HttpGuarantees.DefaultServerIsBounded` | src/network/servers/request_server_base.hpp:7-9 | With the default settings no run queues more than 65536 requests or 64 MiB of bodies, the counter being the exact sum of body sizes, and a worker takes a request exactly while fewer than four are in processing. |
| `HttpGuarantees.DefaultServerRejectsIff` | src/network/servers/request_server_base.hpp:7-9 | With the default settings a request is turned away exactly when the queue is stopped, holds 65536 requests, or its bodies and this one exceed 64 MiB. |
| `HttpPipeline.RunKeepsInv` | src/network/communication/http_connection.hpp:60-171 | The invariant behind all of the above, including that the queue stays within its limits and no more workers are busy than exist, holds in every run. |
| `HttpPipeline.DeliverKeepsLink` | src/network/communication/http_connection.hpp:60-72 | A posted handler finds no response stored under its id, so `emplace` never collides, and keeps the connection's invariant. |
| `HttpPipeline.WrittenKeepsLink` | src/network/communication/http_connection.hpp:149-170 | A completed write retires exactly the response that was owed and keeps the connection's invariant. |
| `HttpPipeline.ReadKeepsTasks` | src/network/communication/http_connection.hpp:112-127 | Reading a request, accepted or rejected, keeps every unanswered id pending exactly once. |
| `HttpConnection.Connection.OnRead` | src/network/communication/http_connection.hpp:96-131 | The read handler numbers the request, offers it to the shared queue, and reads on or posts the 503. |
| `HttpConnection.Connection.RunPosted` | src/network/communication/http_connection.hpp:60-72 | The posted handler stores the response and starts a write if none is in progress. |
| `HttpConnection.Connection.StartWrite` | src/network/communication/http_connection.hpp:133-171 | `write` starts a write of the next owed response or clears `writing`. |
| `HttpConnection.Connection.OnWrite` | src/network/communication/http_connection.hpp:154-168 | The write handler retires the response and goes on, or closes if the response does not keep alive. |
| `RequestServer.WorkerLoop` | src/network/servers/request_server_base.hpp:94-103 | For a handler that may answer equal requests differently, the worker loop ends on a stopped queue, or comes to the wait that blocks on a running one, with every queued request answered once, its response posted to its own connection and nothing else changed. |
| `WorkerPool.PoolRefinesPipeline` | src/network/servers/request_server_base.hpp:94-103 | Every run of the server with workers that sleep and wake is a run of the pipeline with the same connections, so everything above holds of it. |
| `WorkerPool.GuardIsEnough` | src/data_structures/thread_safe/thread_safe_queue.hpp:333-349 | The pipeline never holds back a worker that finds a request: what the threads themselves wait for is all that enables a step. |
| `WorkerPool.RunKeepsInv` | src/network/servers/request_server_base.hpp:94-103 | In every run no wake-up is lost, each busy worker holds its own request and these are the requests in processing, no worker has two roles, and one leaves its loop only when the queue is stopped and empty for good. |
| `WorkerPool.BusyPoolCanStep` | src/data_structures/thread_safe/thread_safe_queue.hpp:333-364 | With a worker, a server that is not at rest always has a write, a finished request, a notification or a runnable worker to go on with: nobody is left asleep beside a request. |
| `WorkerPool.PoolDrains` | src/network/servers/request_server_base.hpp:94-103 | After any run, work in progress and wake-ups end within a computed number of steps in whatever order; when no such step is left, network steps included, every open connection is answered and every worker is asleep, or out of its loop if the queue was stopped. |
| `WorkerPool.StopJoinsWorkers` | src/network/servers/request_server_base.hpp:50-60 | With the queue stopped and the network stopped before it, the workers' own steps end within a computed number in whatever order, with all workers out of their loop so that joining them returns and a response made for every request ever read; nothing is written to any client meanwhile. |
| `ThreadSafeQueue.Queue.PreAdditionCheck` | src/data_structures/thread_safe/thread_safe_queue.hpp:413-438 | Admission: not stopped, room in size, room in bytes; charges the counter only when admitting. |
| `ThreadSafeQueue.Queue.TryPushBack` | src/data_structures/thread_safe/thread_safe_queue.hpp:124-137 | Appends and charges exactly when admitted, otherwise changes nothing. |
| `ThreadSafeQueue.Queue.TryPushFront` | src/data_structures/thread_safe/thread_safe_queue.hpp:164-177 | Prepends and charges exactly when admitted, otherwise changes nothing. |
| `ThreadSafeQueue.Queue.PopFront` | src/data_structures/thread_safe/thread_safe_queue.hpp:290-304 | Removes, refunds and returns the first item, or reports an empty queue. |
| `ThreadSafeQueue.Queue.PopBack` | src/data_structures/thread_safe/thread_safe_queue.hpp:311-325 | Removes, refunds and returns the last item, or reports an empty queue. |
| `ThreadSafeQueue.Queue.WaitAndPop` | src/data_structures/thread_safe/thread_safe_queue.hpp:333-349 | Once the wait predicate holds: the first item, or an empty result when stopped and empty. |
| `ThreadSafeQueue.Queue.ReplaceAll` | src/data_structures/thread_safe/thread_safe_queue.hpp:383-402 | Keeps the prefix the size limit allows and recounts its bytes modulo 2^64. |
| `QueueAccounting.CounterAgreesInEveryRun` | src/data_structures/thread_safe/thread_safe_queue.hpp:413-462 | With byte counting on, every run of all operations keeps `current_bytes` equal to the queued sizes modulo 2^64. |
| `QueueAccounting.TryPushAcceptsIff` | src/data_structures/thread_safe/thread_safe_queue.hpp:413-438 | In every state `try_push` accepts exactly when the queue is running and one more item keeps both limits that are switched on, in unbounded arithmetic; accepting is pushing, rejecting changes nothing. |
| `QueueAccounting.TryPushRejectsIff` | src/data_structures/thread_safe/thread_safe_queue.hpp:404-438 | Within the limits, `try_push` rejects exactly when the queue is stopped or an unchecked push would break a limit: nothing is turned away without need. |
| `QueueAccounting.EndsAreExact` | src/data_structures/thread_safe/thread_safe_queue.hpp:104-349 | A push at either end adds the item there; a pop removes and returns the item at its end or reports an empty queue; `wait_and_pop` pops the front. |
| `QueueAccounting.PopUndoesPush` | src/data_structures/thread_safe/thread_safe_queue.hpp:104-325 | A pop at the same end returns the pushed item and restores the whole state, byte counter included. |
| `QueueAccounting.PushUndoesPop` | src/data_structures/thread_safe/thread_safe_queue.hpp:104-325 | Pushing back what a pop returned restores the whole state. |
| `QueueAccounting.WholesaleOperations` | src/data_structures/thread_safe/thread_safe_queue.hpp:278-402 | `clear` leaves an empty queue, `replace` the longest prefix the size limit allows, `stop` the contents; only `stop` stops the queue. |
| `QueueAccounting.StepKeepsLimitsExactly` | src/data_structures/thread_safe/thread_safe_queue.hpp:383-462 | From a state within both limits with an exact counter, an operation stays there if and only if it is checked or what it adds fits. |
| `QueueAccounting.LimitsHoldInEveryCheckedRun` | src/data_structures/thread_safe/thread_safe_queue.hpp:404-462 | With only try_push, pops, clear and stop both limits hold in every reachable state and the counter is the exact sum, never wrapped. |
| `QueueAccounting.ReplaceBreaksByteLimit` | src/data_structures/thread_safe/thread_safe_queue.hpp:383-402 | On an empty queue `replace` stores an item larger than the byte limit, which `try_push` would not admit. |
| `QueueAccounting.CounterIsLastReplaced` | src/data_structures/thread_safe/thread_safe_queue.hpp:278-462 | Without a byte limit, in every run from an empty queue `current_bytes` is the byte count modulo 2^64 of what the last `replace` since the last `clear` kept, 0 if there was none or bytes are not compiled in, whatever is queued. |
| `QueueAccounting.CounterAgreesIff` | src/data_structures/thread_safe/thread_safe_queue.hpp:278-462 | Every run from an empty queue keeps the counter equal to the queued sizes modulo 2^64 if and only if a byte limit is set or no item has a size. |
| `QueueMonitor.NoLostWakeUp` | src/data_structures/thread_safe/thread_safe_queue.hpp:104-364 | In every run without `replace`, while anyone sleeps the queued items are covered by pending notifications and woken consumers and a stop by its pending notify_all; once nothing is pending a sleeper means empty and not stopped. |
| `QueueMonitor.WakeUpsFinish` | src/data_structures/thread_safe/thread_safe_queue.hpp:333-364 | Notifications and woken consumers finish within a bounded number of steps in any order, and then nobody sleeps beside an item or a stop. |
| `QueueMonitor.UnsettledCanStep` | src/data_structures/thread_safe/thread_safe_queue.hpp:333-364 | While a notification is pending or a consumer is woken, one of those steps is enabled. |
| `QueueMonitor.EverythingIsAccounted` | src/data_structures/thread_safe/thread_safe_queue.hpp:104-364 | In every run of all operations each accepted push notifies exactly once and nothing else does, the first stop broadcasts once, and every call of `wait_and_pop` has returned one item, has returned empty, is asleep or is about to test again. |
| `QueueMonitor.WakeUpLostIff` | src/data_structures/thread_safe/thread_safe_queue.hpp:104-402 | In every state reachable with all operations the wake-ups in progress can be carried out, and in whatever order that is done a consumer is left asleep beside an item or a stop if and only if, now, no notify_all is pending, sleepers outnumber pending notify_ones and items outnumber those plus the consumers awake. |
| `QueueMonitor.ReplaceLosesWakeUpIff` | src/data_structures/thread_safe/thread_safe_queue.hpp:383-402 | `replace` in any reachable state leaves a consumer asleep beside an item, however the wake-ups in progress are carried out, if and only if no notify_all is pending, some sleeper has no notify_one coming, and it keeps more items than consumers awake or to be woken will take. |
| `QueueMonitor.ReplaceLosesAWakeUp` | src/data_structures/thread_safe/thread_safe_queue.hpp:383-402 | A two-step run after which a consumer sleeps beside a queued item with nothing left to wake it. |
| `QueueMonitor.FifoDrain` | src/data_structures/thread_safe/thread_safe_queue.hpp:124-364 | With try_push_back producers and wait_and_pop consumers, handed out then queued is what was accepted, in order; an empty result means stopped with everything accepted handed out for good; after a stop nothing is accepted. |
| `LeaderboardTopK.InvAlways` | src/data_structures/global_boards/leaderboard.hpp:73-138 | From an empty board, either direction, every clock and history: every listed score is its player's best ever, and a player left out means a full board with no listed score worse than their best. |
| `LeaderboardTopK.BoardIsTopOfFullRanking` | src/data_structures/global_boards/leaderboard.hpp:73-138 | The board's scores are, rank by rank, the first `max_size` of any listing of all players from best to worst by their best scores. |
| `LeaderboardTopK.FullRankingExists` | src/data_structures/global_boards/leaderboard.hpp:73-138 | Every history has such a listing of all players, so the comparison is never empty. |
| `Leaderboard.SubmitKeepsGood` | src/data_structures/global_boards/leaderboard.hpp:73-138 | A submission keeps the ranking strictly sorted, names and ids unique, ids below the counter and the size within the limit; the placement is the true index after any eviction and the past index the true index before. |
| `Leaderboard.JoinAcceptedIff` | src/data_structures/global_boards/leaderboard.hpp:112-138 | A new player is accepted exactly when the board has room, or the score beats the last one, or it equals the last one and the clock is before that entry's time. |
| `LeaderboardTies.SubmitExactly` | src/data_structures/global_boards/leaderboard.hpp:73-138 | What a submission leaves: nothing changed on rejection; on acceptance exactly the new entry and all others except the player's former one and, on a full board, the last; in which order; and the next id. |
| `LeaderboardTies.ServedUnlessRefreshed` | src/data_structures/global_boards/leaderboard.hpp:73-138 | With a clock that never goes back, after every history in which no equal score of a listed player was accepted, whoever is left out with a listed player's score reached it no earlier. |
| `LeaderboardTies.RepeatingLosesThePlace` | src/data_structures/global_boards/leaderboard.hpp:85-110 | On a board of any size above one, a history in which the player who reached a score first is left out, because repeating it put them behind the other. |
| `LeaderboardTies.FirstComeFirstServedIff` | src/data_structures/global_boards/leaderboard.hpp:73-138 | With a clock that never goes back, every history is served in order of arrival if and only if the board has a single place. |
| `Leaderboard.ResubmissionAcceptedIff` | src/data_structures/global_boards/leaderboard.hpp:88-95 | A listed player is accepted exactly with a better score, or with an equal one when the fields that were never set come first. |
| `Leaderboard.ResubmissionLowersIff` | src/data_structures/global_boards/leaderboard.hpp:85-110 | An accepted resubmission lowers the rank if and only if the next player has held the submitted score since no later than now; a better score never lowers it; an equal one never raises it unless the clock went back. |
| `Leaderboard.MayLowerIff` | src/data_structures/global_boards/leaderboard.hpp:85-110 | Some values of the fields that are never set lower the player's rank if and only if the score repeats the player's own and the next player has held the same score since no later than now. |
| `Leaderboard.EqualScoreLowersRank` | src/data_structures/global_boards/leaderboard.hpp:26-28 | Two tied players, the first repeats the score: accepted, from index 0 to index 1. |
| `LeaderboardClass.Table.SubmitScore` | src/data_structures/global_boards/leaderboard.hpp:73-138 | The code on entry objects shared by map and ranking computes the value-level submission and keeps map and ranking holding the same objects, each under its own name. |
| `LeaderboardClass.Table.RemoveLast` | src/data_structures/global_boards/leaderboard.hpp:329-341 | The worst entry leaves both structures, which stay in agreement. |
| `LeaderboardClass.Table.LoadFrom` | src/data_structures/global_boards/leaderboard.hpp:271-327 | Loading any record sequence gives the specified board with both structures in agreement, or leaves the empty board; it succeeds exactly when no name is repeated among the records it looks at. |
| `LeaderboardReload.LoadIsGood` | src/data_structures/global_boards/leaderboard.hpp:271-327 | A board constructed over any file satisfies the leaderboard invariant. |
| `LeaderboardReload.LoadContents` | src/data_structures/global_boards/leaderboard.hpp:271-327 | A load takes the first `max_size` records; with distinct names it holds exactly those, numbered by position, from the highest score down and ties by time; otherwise the board stays empty. |
| `LeaderboardReload.SmallerLimitKeepsBest` | src/data_structures/global_boards/leaderboard.hpp:225-327 | A highest-first board saved and loaded under a smaller limit keeps the best of its ranking, in order. |
| `LeaderboardReload.ReloadKeepsRankingIff` | src/data_structures/global_boards/leaderboard.hpp:225-327 | Save then load keeps the (name, score, timestamp) ranking if and only if the board is highest-first or all its scores are equal. |
| `LeaderboardReload.ReloadReorders` | src/data_structures/global_boards/leaderboard.hpp:225-327 | A reload of a board of either direction keeps exactly its records, sorts them from the highest score down with ties by time, and is highest-first. |
| `LeaderboardReload.LowestFirstIsReversed` | src/data_structures/global_boards/leaderboard.hpp:287-320 | Every lowest-first board without ties comes back exactly reversed. |
| `LeaderboardReload.TwoScoresComeBackReversed` | src/data_structures/global_boards/leaderboard.hpp:287-320 | A two-entry lowest-first board and the reversed sequence it reloads to. |
| `LeaderboardReload.ReloadIsInvisibleIff` | src/data_structures/global_boards/leaderboard.hpp:225-327 | A board and its reloaded copy give identical results and rankings on every later history in which no resubmission of an equal score is decided by an id, if and only if the board is highest-first. |
| `LeaderboardReload.ReloadIsInvisibleAlwaysIff` | src/data_structures/global_boards/leaderboard.hpp:225-327 | On all histories without exception they do so if and only if the reload is the board itself: highest-first, ids equal to the positions and the next id equal to the size. |
| `LeaderboardReload.RenumberedBoardDiffers` | src/data_structures/global_boards/leaderboard.hpp:287-320 | A one-entry highest-first board accepts a submission that its reloaded copy, with a smaller id, rejects. |
| `RateLimiter.Limiter.Create` | src/network/security/rate_limiter.hpp:37-57 | Construction fails exactly on a non-positive capacity or rate. |
| `RateLimiter.Limiter.TryConsume` | src/network/security/rate_limiter.hpp:72-104 | `consume` refills lazily, grants and charges as specified, and leaves the table alone on an invalid cost. |
| `RateLimiter.Limiter.Cleanup` | src/network/security/rate_limiter.hpp:106-120 | The sweep removes exactly the buckets idle for longer than the limit. |
| `RateLimiterGuarantees.RefillTwice` | src/network/security/rate_limiter.hpp:91-96 | Refilling in two steps equals refilling once under the cap. |
| `RateLimiterGuarantees.ExactAlways` | src/network/security/rate_limiter.hpp:72-104 | After every history the tokens available are the minimum over all windows ending now of capacity plus inflow minus what was granted in the window. |
| `RateLimiterGuarantees.GrantedIffEveryWindowAllows` | src/network/security/rate_limiter.hpp:72-104 | A call is granted if and only if its cost is valid and in every window ending now the cost granted plus this cost is at most capacity plus inflow. |
| `RateLimiterGuarantees.NoTrace` | src/network/security/rate_limiter.hpp:91-120 | Deleting any set of rejected calls, and of cleanups where the idle limit is long enough, from a history changes no other decision. |
| `RateLimiterGuarantees.CleanupInvisibleIff` | src/network/security/rate_limiter.hpp:83-120 | Cleanups at arbitrary moments never change a decision if and only if a bucket fills up within the idle limit. |
| `RateLimiterGuarantees.BudgetHoldsIff` | src/network/security/rate_limiter.hpp:72-120 | In every history, cleanups included, no caller is granted more in any window than one full bucket plus the inflow, if and only if a bucket fills up within the idle limit. |
| `RateLimiterGuarantees.CleanupKeepsExactlyTheRecent` | src/network/security/rate_limiter.hpp:83-120 | After a cleanup, whatever happened before, the table holds exactly the callers with a call of valid cost, granted or not, within the idle limit, their buckets untouched. |
| `RateLimiterGuarantees.DefaultLimiterIsSafe` | src/network/servers/request_server_base.hpp:11-12 | The default limiter grants nobody more than 50 plus one for every two seconds in any window of any history, and its cleanup is invisible. |
| `WebsocketSession.RunKeepsInv` | src/network/communication/websocket_connection.hpp:51-134 | In every run written, queued and posted messages are the sent ones in order; one write is outstanding, of the head, exactly when something is queued and none has failed. |
| `WebsocketSession.SessionDrains` | src/network/communication/websocket_connection.hpp:105-134 | Without sends a session comes to rest within a bounded number of steps, having written everything unless a write failed; after a failure nothing is written again. |
| `WebsocketSession.WebsocketConnection.OnPosted` | src/network/communication/websocket_connection.hpp:51-64 | The posted handler queues the message and starts a write only if the queue was empty. |
| `WebsocketSession.WebsocketConnection.OnWrite` | src/network/communication/websocket_connection.hpp:110-133 | A completed write erases the head and starts the next; a failed one leaves the queue. |
| `Nameboard.AddNameKeepsGood` | src/data_structures/global_boards/nameboard.hpp:58-107 | For every clock list and ranking hold the same entries, sorted and unique; exactly when a name is refused; the index is the rank, or one more when the oldest entry was evicted. |
| `Nameboard.AddNameContents` | src/data_structures/global_boards/nameboard.hpp:58-107 | A listed name changes nothing; any other is entered at the end of the list, and when that is one too many the oldest entry of all leaves, the new one if it is the oldest, the order of the others unchanged. |
| `Nameboard.FullBoardReturnsOneMore` | src/data_structures/global_boards/nameboard.hpp:58-107 | A full board of one entry accepts a second name at rank 0 and returns 1. |
| `Nameboard.BoardIsLastAccepted` | src/data_structures/global_boards/nameboard.hpp:58-107 | With a clock that never goes back, list and ranking are both the last `max_size` accepted names in order. |
| `Nameboard.SaveThenLoad` | src/data_structures/global_boards/nameboard.hpp:227-323 | Save then load keeps the (name, timestamp) sequence and the invariant, whatever the clock did. |
| `Nameboard.LoadContents` | src/data_structures/global_boards/nameboard.hpp:271-323 | Whatever the file holds, its first `max_size` records are listed in file order, numbered from 0, and ranked by time and position. |
| `Nameboard.LoadIsGoodIff` | src/data_structures/global_boards/nameboard.hpp:271-323 | A loaded board satisfies the invariant exactly when those records have distinct names. |
| `Nameboard.SmallerLimitKeepsOldest` | src/data_structures/global_boards/nameboard.hpp:227-323 | Loaded under a smaller limit, a saved board keeps its oldest names, in order. |
| `Nameboard.Names.Add` | src/data_structures/global_boards/nameboard.hpp:58-107 | `add_name` with its search and erase loops computes the specified board and result. |
| `Nameboard.Names.Has` | src/data_structures/global_boards/nameboard.hpp:114-122 | True exactly when some entry has the name. |
| `Nameboard.Names.LoadFrom` | src/data_structures/global_boards/nameboard.hpp:271-323 | The load loop computes the specified board. |
| `QueryParser.ParseQuery` | src/network/communication/http_parser.hpp:14-70 | The index-based loop computes, for every string: cut at the first '?', split on '&', keep pieces with '=', cut each at its first '=', last key wins (section 3.4 of RFC 3986). |
| `QueryParser.PrintThenParse` | src/network/communication/http_parser.hpp:14-70 | Printing pieces free of '&', pairs or texts without '=', joined by '&' after a path without '?', then parsing, gives the last-wins map of the pairs; a piece without '=' contributes nothing. |
| `QueryParser.ParseIsDetermined` | src/network/communication/http_parser.hpp:14-70 | Every target either has no '?' and parses to nothing, or is a path and such pieces and parses to their last-wins map: this fixes the result for every string. |
| `QueryParser.LastWinsIsLast` | src/network/communication/http_parser.hpp:34-64 | In the last-wins map a key has the value of its last pair, and there are no other keys. |

## Left out

- Boost.Asio and Beast: sockets, handshakes, buffers and HTTP message parsing appear only as completions that succeed or fail.
- The exception `get_client_ip` throws on a closed socket, object lifetimes and destruction order.
- Sequence ids and entry ids are unbounded; their 64-bit wrap-around is not modelled.
- ThreadSafeQueue.Queue.WaitAndPop: covers the part after the wait; sleeping and waking are in QueueMonitor, where a critical section is one step, so interleavings inside a held lock are not modelled.
- RequestServer.WorkerLoop: one worker undisturbed by other threads, up to its end or the wait that blocks; workers that block, wake and compete for requests are the steps Wait, Resume and Finish of WorkerPool.
- Responses made after a stop: the io context is stopped before the queue, so they stay posted and are not sent (WorkerPool.StopJoinsWorkers); no member promises that a stop delivers them.
- JSON text, file I/O and temporary files: save and load go to and from sequences of records.
- Floating-point rounding in the rate limiter and NaN scores in the leaderboard.
- How `parse_query` tells integers, floats and strings apart: an uninterpreted function of the value.
- WebSocket reading and backpressure, broadcast and the fixed-update loop.
- The executor of a WebSocket session runs handlers in posting order, as a single context thread does; several threads on one context are not modelled.
- LeaderboardClass.Table.SubmitScore: requires `max_size` of at least 1; with 0 the source steps before the first element of an empty ranking, which is undefined.
- LeaderboardClass.Table.LoadFrom: as the constructor calls it, on an empty board; files whose items are not objects with the three fields are not modelled.
- Range queries of the boards, `front`, `back` and size queries of the queue, `score_stream`, `thread_safe_unordered_map`, `locked_value`, response helpers, logging, server launch: short facts only.
