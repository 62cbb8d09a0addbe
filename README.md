# islanding-download: a Dafny model of the dispatcher, the agent and the browser list

islanding-download splits file downloads between a **dispatcher** and one or more **agents** that talk over a message bus.

- The dispatcher accepts URLs, registers a job for each and puts it on a queue.
- An agent takes jobs off the queue one at a time and fetches each over HTTP. It reports progress on a progress channel and announces itself with heartbeats.
- The dispatcher folds the progress reports into its job registry and re-broadcasts them to every open event stream. It also keeps a liveness registry of agents built from their heartbeats.
- A browser list shows the jobs and merges the streamed events into its copy.

This project models the in-memory bookkeeping on both sides of the bus, with one Dafny module per source component:

| module | file | models |
|---|---|---|
| `Common` | common.dfy | `Option`, time as integer ticks, `MinReal` |
| `Messages` | messages.dfy | the three bus messages, one consumed record (`Polled`), and how a consume loop ends (`Accepted`, `Exit`) |
| `DownloadStates` | download_state.dfy | the job record, its defaults and `PercentComplete` |
| `Downloads` | download_store.dfy | the job registry (`DownloadStore`) and its partial-field `Merge` |
| `Agents` | agent_store.dfy | the liveness registry (`AgentStore`) and the order of its listing |
| `Broadcasting` | broadcaster.dfy | the broadcast hub (`ProgressBroadcaster`): one FIFO queue per subscriber |
| `ProgressIngest` | progress_ingest.dfy | the progress consume loop: merge into the registry, then broadcast |
| `HeartbeatIngest` | heartbeat_ingest.dfy | the heartbeat consume loop: upsert into the liveness registry |
| `Worker` | download_worker.dfy | the agent's worker: the job loop, the active-download counter, the read loop with its throttle, and the reports it sends |
| `ClientDownloads` | client_downloads.dfy | the browser list and its merge of a streamed event |
| `Pipeline` | pipeline.dfy | properties that span the components |

Modelling choices:

- **Time and I/O.** The clock is a parameter: `now`, or one time per consumed record. A bus consumer is a sequence of already-received records. An HTTP fetch is a `Response`: no response at all, or a status code, a Content-Length and a sequence of body reads, each stamped with the stopwatch reading in milliseconds.
- **Numbers.** Integers are unbounded. Rates and percentages are `real`.
- **Classes.** The registries, the hub, the worker and the browser list are classes whose fields the methods update. Merges, orderings and the loops' cumulative effects are pure functions, and the methods are proved against them.

Some behaviours of the code differ from what a reader of the interfaces might expect. The model follows the code:

- `Add` replaces a job already stored under the same id instead of refusing a duplicate.
- The first report of a fetch and every failure report carry a total of 0 rather than no total. The registry therefore resets the job's total to 0 (`Pipeline.ZeroTotalReportsResetRegistry`).
- A record that is not valid JSON makes the deserialiser throw, and no consume loop catches that exception. The loop ends there rather than dropping the record (`Messages.Exit`, `LoopExit.Crashed`).
- The worker awaits each job before it looks at the next record, so downloads run one at a time (`Worker.JobsInSequence`).

## Model

| member | source | states |
|---|---|---|
| `DownloadStates.NewDownloadState` | dispatcher/dispatcher/Models/DownloadState.cs:3-14 | A new record holds the given id, URL, status and enqueue time. Totals, counts and rate are 0; agent, error and completion time are null; the percentage is 0. |
| `DownloadStates.PercentComplete` | dispatcher/dispatcher/Models/DownloadState.cs:16-17 | The percentage is 0 when the total is not positive and never exceeds 100. It is exactly 100 once the count reaches a positive total, and non-negative for a positive total and a non-negative count. |
| `DownloadStates.PercentBelowTotal` | dispatcher/dispatcher/Models/DownloadState.cs:17 | Up to the total, the percentage is the uncapped ratio 100·downloaded/total. |
| `DownloadStates.PercentMonotone` | dispatcher/dispatcher/Models/DownloadState.cs:17 | For a positive total, a larger non-negative count never gives a smaller percentage. |
| `Downloads.Merge` | dispatcher/dispatcher/Services/DownloadStore.cs:21-30 | Field by field. Id, URL and enqueue time are kept. Count, rate and status are always overwritten, whatever the current status. Total, agent and error message are overwritten only by a non-null value. The completion time becomes `now` exactly on "Completed" or "Failed" and is kept otherwise. |
| `Downloads.MergeRedelivered` | dispatcher/dispatcher/Services/DownloadStore.cs:21-31 | Applying the same update twice equals applying it once at the later time. |
| `Downloads.MergeLastWins` | dispatcher/dispatcher/Services/DownloadStore.cs:21-30 | Take an update that carries every optional field and does not take a terminal status back to a non-terminal one. It erases the effect of any earlier update. |
| `Downloads.MergeKeepsKnownValues` | dispatcher/dispatcher/Services/DownloadStore.cs:27-29 | A known agent, error message or completion time is never forgotten. |
| `Downloads.NewestFirst` | dispatcher/dispatcher/Services/DownloadStore.cs:14 | Lists every id of the map once, ordered by enqueue time, newest first. |
| `Downloads.NewestFirstListsAll` | dispatcher/dispatcher/Services/DownloadStore.cs:14 | No stored id is left out of that listing. |
| `Downloads.DownloadStore.constructor` | dispatcher/dispatcher/Services/DownloadStore.cs:8 | The registry starts empty. |
| `Downloads.DownloadStore.Add` | dispatcher/dispatcher/Services/DownloadStore.cs:10 | Stores the record under its own id, replacing any record already there. Nothing else changes. |
| `Downloads.DownloadStore.Get` | dispatcher/dispatcher/Services/DownloadStore.cs:12 | Returns the stored record exactly when the id is present and null otherwise. The record returned carries the id asked for. |
| `Downloads.DownloadStore.GetAll` | dispatcher/dispatcher/Services/DownloadStore.cs:14 | Returns as many records as are stored, every one of them stored and every stored one included. They are sorted by enqueue time descending, with no id twice. |
| `Downloads.DownloadStore.UpdateProgress` | dispatcher/dispatcher/Services/DownloadStore.cs:16-32 | An unknown id leaves the whole map unchanged. Otherwise only that id's entry changes, to `Merge` of the old record with the update at `now`. The key set is unchanged, and every record stays under its own id. |
| `Agents.Precedes` | dispatcher/dispatcher/Services/AgentStore.cs:16 | The order the agent list is sorted by: lexicographic by code point, a proper prefix first. `Agents.PrecedesIrreflexive`, `Agents.PrecedesTransitive` and `Agents.PrecedesTotal` show it is a strict total order. |
| `Agents.PrecedesIrreflexive` | dispatcher/dispatcher/Services/AgentStore.cs:16 | The id order is irreflexive. |
| `Agents.PrecedesTransitive` | dispatcher/dispatcher/Services/AgentStore.cs:16 | The id order is transitive. |
| `Agents.PrecedesTotal` | dispatcher/dispatcher/Services/AgentStore.cs:16 | Any two distinct ids are ordered one way or the other. |
| `Agents.Ascending` | dispatcher/dispatcher/Services/AgentStore.cs:16 | Lists every id of a set once, in strictly ascending order. |
| `Agents.AscendingListsAll` | dispatcher/dispatcher/Services/AgentStore.cs:16 | No id of the set is left out of that listing. |
| `Agents.AgentStore.constructor` | dispatcher/dispatcher/Services/AgentStore.cs:8 | The registry starts empty. |
| `Agents.AgentStore.UpsertAgent` | dispatcher/dispatcher/Services/AgentStore.cs:10-11 | Replaces the agent's whole record with (id, last seen, current downloads), with no merge against the old one. Every other agent is unchanged. |
| `Agents.AgentStore.GetAvailableAgents` | dispatcher/dispatcher/Services/AgentStore.cs:13-17 | Returns stored records only, each seen at or after `now - maxAge` (the cutoff is inclusive). Every such agent is included, since age is the only filter. The result is in strictly ascending id order, with no duplicates. It is a function, so it changes nothing. |
| `Broadcasting.Delivered` | dispatcher/dispatcher/Services/ProgressBroadcaster.cs:14-18 | Writing a message to every queue keeps the subscriber set and appends the message to each queue. |
| `Broadcasting.Step` | dispatcher/dispatcher/Services/ProgressBroadcaster.cs:12-41 | One hub event on the queues: subscribe adds an empty queue, broadcast writes to every queue, a read removes a queue's head, and unsubscribe drops the queue. The `Broadcasting.ProgressBroadcaster` methods are proved against it. |
| `Broadcasting.Run` | dispatcher/dispatcher/Services/ProgressBroadcaster.cs:12-41 | The queues after a history of hub events, applied in order. `Broadcasting.QueueIsFifo` and `Broadcasting.NoReplay` are stated over it. |
| `Broadcasting.Received` | dispatcher/dispatcher/Services/ProgressBroadcaster.cs:34-35 | What one subscriber reads off its queue during a history of events, in order. `Broadcasting.QueueIsFifo` and `Broadcasting.NoReplay` relate it to what was broadcast. |
| `Broadcasting.StepIsFifo` | dispatcher/dispatcher/Services/ProgressBroadcaster.cs:12-41 | Take a subscription and any event that does not end it. What the event takes from the subscription's queue, plus what stays queued, equals the queue before plus what the event broadcasts. |
| `Broadcasting.QueueIsFifo` | dispatcher/dispatcher/Services/ProgressBroadcaster.cs:29-35 | While a subscription lives: what it has taken, then what is still queued, equals what was queued before, then every message broadcast since, in broadcast order. |
| `Broadcasting.NoReplay` | dispatcher/dispatcher/Services/ProgressBroadcaster.cs:29-35 | Read what a subscriber takes followed by what stays in its queue. That equals exactly the messages broadcast after it subscribed, in order, and none from before. |
| `Broadcasting.StepKeepsOthers` | dispatcher/dispatcher/Services/ProgressBroadcaster.cs:33-39 | Subscribing, reading or unsubscribing under one id leaves every other queue as it was. |
| `Broadcasting.ProgressBroadcaster.constructor` | dispatcher/dispatcher/Services/ProgressBroadcaster.cs:10 | The hub starts with no subscribers. |
| `Broadcasting.ProgressBroadcaster.Broadcast` | dispatcher/dispatcher/Services/ProgressBroadcaster.cs:12-25 | The queues become `Delivered(old, message)`. Writes never fail and no subscriber is skipped. With no subscribers nothing changes. |
| `Broadcasting.ProgressBroadcaster.Subscribe` | dispatcher/dispatcher/Services/ProgressBroadcaster.cs:29-33 | Registers the id with a new, empty queue. |
| `Broadcasting.ProgressBroadcaster.Take` | dispatcher/dispatcher/Services/ProgressBroadcaster.cs:34-35 | Returns the head of the subscriber's queue and removes it, or returns nothing when the queue is empty. |
| `Broadcasting.ProgressBroadcaster.Unsubscribe` | dispatcher/dispatcher/Services/ProgressBroadcaster.cs:37-40 | Removes exactly that id. Every other queue is untouched. |
| `Messages.Accepted` | dispatcher/dispatcher/Services/ProgressConsumerHostedService.cs:52-57 | The messages a loop acts on are messages of decoded records of its input, never more than the records consumed. Their order and completeness are stated by `Messages.AcceptedInOrder` and `Messages.AcceptedBeforeCrash`. |
| `Messages.Exit` | dispatcher/dispatcher/Services/ProgressConsumerHostedService.cs:55-64 | A loop crashes at an undecodable record with none before it. It stops normally only when no record is undecodable. |
| `Messages.ExitAtFirstBad` | dispatcher/dispatcher/Services/AgentHeartbeatHostedService.cs:52-60 | The loop ends exactly at the first undecodable record, or runs to the end of its input when there is none. |
| `Messages.NothingAcceptedAfterCrash` | dispatcher/dispatcher/Services/ProgressConsumerHostedService.cs:55-71 | Once the loop has crashed, later records change neither what it acted on nor where it stopped. |
| `Messages.AcceptedWithoutCrash` | dispatcher/dispatcher/Services/ProgressConsumerHostedService.cs:52-57 | With no undecodable record, a message is acted on if and only if it was decoded. Null and null-decoding records and consume errors are skipped. |
| `Messages.AcceptedIndices` | dispatcher/dispatcher/Services/ProgressConsumerHostedService.cs:52-64 | The records a loop acts on, by index: only decoded records, in strictly increasing order. Every decoded record before the first undecodable one is included. |
| `Messages.AcceptedInOrder` | dispatcher/dispatcher/Services/ProgressConsumerHostedService.cs:48-59 | The accepted messages are the messages of exactly those records, in the order of the records: a subsequence of the decoded messages. |
| `Messages.AcceptedAppend` | dispatcher/dispatcher/Services/ProgressConsumerHostedService.cs:48-64 | When a run of records does not crash the loop, the loop over that run followed by more records acts on the messages of both, in order. It ends where the second part ends, its index shifted by the first part's length. |
| `Messages.AcceptedBeforeCrash` | dispatcher/dispatcher/Services/ProgressConsumerHostedService.cs:52-64 | A loop that crashes at record c has acted on exactly what the loop over the records before c acts on, and that run stops normally. Every decoded record before the crash is acted on. |
| `ProgressIngest.ProgressOf` | dispatcher/dispatcher/Services/ProgressConsumerHostedService.cs:58 | The registry receives exactly the message's total, count, rate, status, agent and message fields. |
| `ProgressIngest.Apply` | dispatcher/dispatcher/Services/ProgressConsumerHostedService.cs:58 | A message leaves the job set unchanged and every other job unchanged. A known job becomes the merge of the message into it. |
| `ProgressIngest.Replay` | dispatcher/dispatcher/Services/ProgressConsumerHostedService.cs:48-64 | The registry after the loop has consumed a sequence of records, each at its own time. Decoded messages are applied in order, other records are skipped, and the first undecodable record ends the loop. No contract of its own; the `ProgressIngest.Replay…` lemmas state what it keeps, and `ProgressIngest.ConsumeProgress` is proved against it. |
| `ProgressIngest.DeliveredAll` | dispatcher/dispatcher/Services/ProgressConsumerHostedService.cs:59 | The hub's queues after each of a sequence of messages has been broadcast in turn. `ProgressIngest.DeliveredAllAppends` states the result. |
| `ProgressIngest.DeliveredAllAppends` | dispatcher/dispatcher/Services/ProgressConsumerHostedService.cs:59 | Broadcasting a sequence of messages keeps the subscribers and appends exactly that sequence to each queue. |
| `ProgressIngest.ReplayKeepsJobs` | dispatcher/dispatcher/Services/ProgressConsumerHostedService.cs:58 | The loop never creates or removes a job. Messages about unknown jobs are dropped. |
| `ProgressIngest.ReplayKeepsUnnamed` | dispatcher/dispatcher/Services/ProgressConsumerHostedService.cs:58 | A job that no acted-on message names keeps its record. |
| `ProgressIngest.ReplayKeepsKeyed` | dispatcher/dispatcher/Services/ProgressConsumerHostedService.cs:58 | Every record stays under its own id. |
| `ProgressIngest.ReplaySnoc` | dispatcher/dispatcher/Services/ProgressConsumerHostedService.cs:48-59 | After a run with no undecodable record, consuming one more decoded message applies it to the registry that run left. |
| `ProgressIngest.ReplayRedelivery` | dispatcher/dispatcher/Services/ProgressConsumerHostedService.cs:52-58 | A message delivered twice in a row leaves the registry as a single delivery at the later time would. |
| `ProgressIngest.HandleRecord` | dispatcher/dispatcher/Services/ProgressConsumerHostedService.cs:52-59 | A record that does not crash the loop either is skipped, changing nothing, or is merged into the registry and only then broadcast. The snapshot taken at the broadcast shows the merged registry. |
| `ProgressIngest.ConsumeProgress` | dispatcher/dispatcher/Services/ProgressConsumerHostedService.cs:43-72 | The loop ends where `Exit` says. The registry ends as the replay of the input. The hub ends as the broadcast, in consumption order, of exactly the accepted messages. At each broadcast the registry has the same jobs and already shows that message's count, rate and status (store first, then broadcast). |
| `HeartbeatIngest.InfoOf` | dispatcher/dispatcher/Services/AgentHeartbeatHostedService.cs:55 | A heartbeat stores its own agent id, last-seen time and download count. |
| `HeartbeatIngest.Upserted` | dispatcher/dispatcher/Services/AgentHeartbeatHostedService.cs:45-55 | The liveness registry after a sequence of heartbeats, each upserted in turn. No contract of its own; `HeartbeatIngest.UpsertedKeys`, `HeartbeatIngest.UpsertedKeepsUnnamed` and `HeartbeatIngest.UpsertedHoldsLast` state the result. |
| `HeartbeatIngest.UpsertedKeys` | dispatcher/dispatcher/Services/AgentHeartbeatHostedService.cs:45-55 | After a run of heartbeats, the registered agents are those before plus every agent named. None is ever dropped. |
| `HeartbeatIngest.UpsertedKeepsUnnamed` | dispatcher/dispatcher/Services/AgentHeartbeatHostedService.cs:45-55 | An agent no heartbeat names keeps its record. |
| `HeartbeatIngest.UpsertedHoldsLast` | dispatcher/dispatcher/Services/AgentHeartbeatHostedService.cs:45-55 | Each named agent holds exactly the record of its last heartbeat. |
| `HeartbeatIngest.OlderHeartbeatOverwrites` | dispatcher/dispatcher/Services/AgentHeartbeatHostedService.cs:55 | A heartbeat consumed later wins even when its last-seen time is older. |
| `HeartbeatIngest.ConsumeHeartbeats` | dispatcher/dispatcher/Services/AgentHeartbeatHostedService.cs:40-68 | The loop ends where `Exit` says. The registry ends as the upsert, in order, of exactly the accepted heartbeats, and every record stays under its own id. |
| `Worker.Rate` | agent/downloader-agent/Services/DownloadWorkerService.cs:126-136 | With time elapsed, the rate times the elapsed milliseconds is 1000 times the bytes. It is non-negative for a non-negative count, and 0 when no time has elapsed. |
| `Worker.IsSuccess` | agent/downloader-agent/Services/DownloadWorkerService.cs:110 | The status codes `EnsureSuccessStatusCode` lets through, 200 to 299. It has no contract; `Worker.EarlyFailureReportsOnce` and `Worker.SuccessfulFetchReports` state what follows from it. |
| `Worker.Transfer` | agent/downloader-agent/Services/DownloadWorkerService.cs:116-134 | The read loop as a function of the body's reads: the reports it makes, the count it reaches and how it ends. It has no contract of its own. `Worker.TransferCounts`, `Worker.TicksThrottled` and `Worker.ReportAfterInterval` state what it computes, and `Worker.DownloadWorker.ReadBody` is proved against it. |
| `Worker.TransferCounts` | agent/downloader-agent/Services/DownloadWorkerService.cs:116-125 | The count reached is the sum of the read counts up to the first zero read. The loop ends normally exactly when no read throws before that. |
| `Worker.Due` | agent/downloader-agent/Services/DownloadWorkerService.cs:129 | A report is due exactly when at least the interval has elapsed since the last one. The test truncates the elapsed time to whole milliseconds, and the interval is whole milliseconds too. |
| `Worker.TicksThrottled` | agent/downloader-agent/Services/DownloadWorkerService.cs:129-133 | The first intermediate report comes at least the interval after the start. Each later one comes at least the interval after the one before. Their counts strictly increase and never pass the final count. |
| `Worker.ReportAfterInterval` | agent/downloader-agent/Services/DownloadWorkerService.cs:122-133 | The converse of throttling: a read that returns bytes once the interval has elapsed since the last report is reported at that read, with the count and the rate reached. |
| `Worker.Report` | agent/downloader-agent/Services/DownloadWorkerService.cs:141-146 | A report carries exactly the given job id, this agent's id, total, count, rate, status and message. |
| `Worker.Started` | agent/downloader-agent/Services/DownloadWorkerService.cs:112 | The first report of a fetch: Downloading, with total 0, count 0, rate 0 and no message. |
| `Worker.Failed` | agent/downloader-agent/Services/DownloadWorkerService.cs:99 | The report after an exception: Failed, with total 0, count 0, rate 0 and the exception's message. |
| `Worker.TickReports` | agent/downloader-agent/Services/DownloadWorkerService.cs:131 | One Downloading report per intermediate report, in order, each carrying the Content-Length, the count and the rate at that point. |
| `Worker.Fetch` | agent/downloader-agent/Services/DownloadWorkerService.cs:107-139 | Every report of a fetch names the job and this agent. The fetch ends without an exception exactly when the status is a success and no read throws, and then its last report is Completed. |
| `Worker.JobReports` | agent/downloader-agent/Services/DownloadWorkerService.cs:88-105 | The reports of one job: those of the fetch, then a Failed report if it threw. It has no contract of its own; `Worker.JobReportsShape` states their shape. |
| `Worker.JobReportsShape` | agent/downloader-agent/Services/DownloadWorkerService.cs:88-137 | A job sends at least one report, all about it and from this agent. All but the last are Downloading; the last is Completed or Failed. |
| `Worker.EarlyFailureReportsOnce` | agent/downloader-agent/Services/DownloadWorkerService.cs:96-110 | Suppose there is no response, or the status is not a success. Then the only report is Failed, with total 0, count 0, rate 0 and the exception's message. |
| `Worker.SuccessfulFetchReports` | agent/downloader-agent/Services/DownloadWorkerService.cs:96-137 | With a success status, the first report is Downloading with total 0, count 0 and rate 0. If no read throws, the last is Completed with every byte read and the Content-Length, or the bytes read when there is none. Otherwise the last is Failed with zero counts and the exception's message. |
| `Worker.RunReports` | agent/downloader-agent/Services/DownloadWorkerService.cs:62-78 | Every report the job loop sends, for all records in order, comes from this agent. |
| `Worker.JobsInSequence` | agent/downloader-agent/Services/DownloadWorkerService.cs:62-78 | Over all the reports the job loop sends, every Downloading report is followed by another report about the same job. So no other job's report comes between a job's first report and its Completed or Failed one: jobs run one at a time. |
| `Worker.DownloadWorker.constructor` | agent/downloader-agent/Services/DownloadWorkerService.cs:30-38 | The worker starts with the given agent id and throttle, no active download and nothing sent. |
| `Worker.DownloadWorker.SendProgress` | agent/downloader-agent/Services/DownloadWorkerService.cs:141-146 | Appends one report of this agent to what has been sent. |
| `Worker.DownloadWorker.ReadBody` | agent/downloader-agent/Services/DownloadWorkerService.cs:114-134 | The read loop sends exactly the throttled intermediate reports of `Transfer`. It returns the count reached and how the loop ended. |
| `Worker.DownloadWorker.DownloadWithProgress` | agent/downloader-agent/Services/DownloadWorkerService.cs:107-139 | Sends exactly the reports of `Fetch` and returns the exception it throws, if any. |
| `Worker.DownloadWorker.ProcessDownload` | agent/downloader-agent/Services/DownloadWorkerService.cs:88-105 | Sends exactly the job's reports, with a Failed report after an exception. The active-download counter is back at its prior value on every exit. |
| `Worker.DownloadWorker.Run` | agent/downloader-agent/Services/DownloadWorkerService.cs:57-86 | Null and null-decoding records start no download. Each decoded job runs to its end before the next record. The loop ends where `Exit` says. The counter is restored. |
| `ClientDownloads.MergeEvent` | dispatcher/frontend/src/hooks/useDownloads.ts:29-41 | Id, URL, enqueue time and completion time are never changed. Count, rate and status are overwritten. Total, agent and error message are kept when the event's field is null. The percentage is recomputed, capped at 100, only when the event's total is positive, and kept otherwise. |
| `ClientDownloads.ApplyEvent` | dispatcher/frontend/src/hooks/useDownloads.ts:26-43 | The list keeps its length, order and ids. Entries with the event's id are merged, and every other entry is unchanged. |
| `ClientDownloads.ApplyUnknownEvent` | dispatcher/frontend/src/hooks/useDownloads.ts:27-42 | An event whose id matches no entry leaves the list unchanged. |
| `ClientDownloads.MergeEventIdempotent` | dispatcher/frontend/src/hooks/useDownloads.ts:29-41 | Merging the same event twice equals merging it once. |
| `ClientDownloads.ApplyEventIdempotent` | dispatcher/frontend/src/hooks/useDownloads.ts:26-43 | A redelivered event leaves the list as a single delivery does. |
| `ClientDownloads.ApplyEventsCommute` | dispatcher/frontend/src/hooks/useDownloads.ts:26-43 | Events about different jobs can be applied in either order. |
| `ClientDownloads.OnMessage` | dispatcher/frontend/src/hooks/useDownloads.ts:23-48 | Data that does not parse leaves the list unchanged. An event is applied. |
| `ClientDownloads.DownloadsView.constructor` | dispatcher/frontend/src/hooks/useDownloads.ts:6-7 | The list starts empty with no error. |
| `ClientDownloads.DownloadsView.Receive` | dispatcher/frontend/src/hooks/useDownloads.ts:23-48 | A stream message updates the list as `OnMessage` says and leaves the error as it was. |
| `ClientDownloads.DownloadsView.Refresh` | dispatcher/frontend/src/hooks/useDownloads.ts:10-18 | A loaded list replaces the current one and clears the error. A failed load keeps the list and records the message. |
| `Pipeline.ClientView` | dispatcher/dispatcher/Program.cs:52-56 | The browser's copy of a record has the record's fields and its `PercentComplete`. |
| `Pipeline.EventOf` | dispatcher/dispatcher/Program.cs:74-85 | The streamed event carries every field of the broadcast message except its timestamp. |
| `Pipeline.ClientTracksServer` | dispatcher/frontend/src/hooks/useDownloads.ts:29-41 | For a message with a positive total, the browser's merge of the event into its copy gives the copy of the registry's merge. The one exception is the completion time, which the browser never updates. |
| `Pipeline.ClientKeepsPercentWithoutTotal` | dispatcher/frontend/src/hooks/useDownloads.ts:37-40 | Take a message without a total. The browser keeps its old percentage, while the registry's percentage rises with the new count. |
| `Pipeline.ZeroTotalReportsResetRegistry` | agent/downloader-agent/Services/DownloadWorkerService.cs:99-112 | The start report and a failure report set the registry's total to 0, so it shows 0%. A failure also stamps the completion time and records the exception's message, while the start report keeps both. |
| `Pipeline.FailureAfterProgressViewsDisagree` | dispatcher/frontend/src/hooks/useDownloads.ts:37-40 | A failure report after some progress leaves the browser showing the old, positive percentage, while the registry shows 0%. |
| `Pipeline.AsRecords` | dispatcher/dispatcher/Services/ProgressConsumerHostedService.cs:55 | An agent's reports, as received by the dispatcher, are decoded records in the same order. |
| `Pipeline.CompletedFetchReachesFull` | agent/downloader-agent/Services/DownloadWorkerService.cs:136-137 | Take a fetch with a success status whose body ends after some bytes, with a Content-Length, if any, positive and at most the bytes read. Once the progress loop consumes all its reports, the registry shows the job Completed at 100%, with every byte read and a completion time. |

## Left out

- Bus I/O: building the consumers and producers, subscribing, offsets and closing. Consume loops get their records as a sequence, and cancellation is the end of that sequence.
- The agent's producer always succeeds. A `ProduceAsync` that throws, including a throw while a Failed report is being sent after an exception, is not modelled.
- A progress message's `Timestamp` field. The dispatcher never reads it and the event stream drops it.
- A message whose id field is JSON null. The dictionary would throw on the null key and end the loop, but ids are non-null strings here.
- HTTP. The client, its two-hour timeout, the header read and stream opening are collapsed into `Response`. A failure to open the stream counts as a failing first read.
- The agreement between the Content-Length and the bytes the body delivers, which the HTTP client enforces. A `Response` can carry any Content-Length, so in the model a Completed report can carry a total different from its count.
- Time spent sending a report before the throttle timer restarts. Both stopwatches are read at the instant of the read.
- Concurrency: the thread safety of the concurrent dictionaries, the multi-writer channels, `Interlocked` and cancellation tokens. Every operation is sequential.
- The counter that heartbeats read while a job runs. `Worker.DownloadWorker.ProcessDownload` states only that it is restored, not its raised value during the job, because heartbeats run concurrently.
- Floating point. Rates and percentages are exact reals, with no IEEE rounding.
- 64-bit and 32-bit overflow of counts and totals.
- Bounds of the date type. Times are unbounded integers.
- The comparer in `GetAvailableAgents`, which is the current culture's string comparer. `Agents.Precedes` orders ids by code point. That also differs from C#'s ordinal comparison for characters outside the Basic Multilingual Plane: ordinal comparison goes by UTF-16 code units, so it puts U+10000 (lead surrogate 0xD800) before U+FFFF, and `Agents.Precedes` does the opposite.
- The agent id's construction from the machine name and a random GUID. It is a constructor parameter.
- The heartbeat sender (HeartbeatService.cs) is not part of this model. It is a timer and a producer. The heartbeat message is modelled.
- The routes, URL validation and SSE framing of Program.cs are not part of this model, apart from the two projections `Pipeline.ClientView` and `Pipeline.EventOf`.
- In the browser: `addDownload`, the loading flag, reconnecting on stream errors, and all rendering and formatting code.
- A stream message that parses as JSON but is not an object (for example `null`) fails inside the list update, outside the handler's `try`. The model treats data only as parseable into an event or not.
- The queue message's producer (KafkaDownloadProducer.cs) is not part of this model. It only serialises and sends.
