# java-pubcontrol, modelled in Dafny

This project models the publishing core of the Java `pubcontrol` library.

- **`Item`** bundles format payloads with an optional id and previous id. `Item.export` serialises them into the record that is published.
- **`PubControlClient`** publishes items to one endpoint. It publishes either synchronously, with one transport call, or asynchronously. In the asynchronous case, requests wait in a queue until a worker drains them in batches of at most ten.
- **`PccCallbackHandler`** is the join counter shared by all clients of one asynchronous publish.
- **`PubControl`** holds an ordered list of clients, built from configuration entries or added by hand. It fans every publish and finish out to them in list order.

## Modules and files

| file | module | what it holds |
|---|---|---|
| `wrappers.dfy` | `Wrappers` | `Option` and `Result`. |
| `values.dfy` | `Values` | The values a published record holds. |
| `item.dfy` | `Items` | Formats, items, the specification `Exported` of `export` and the imperative `Export`. |
| `callback_handler.dfy` | `Callbacks` | The handler class, its specification `Tally`/`Complete`/`CompleteAll` with lemmas, and `Dispatch`, which makes the `completed` calls of a batch. |
| `auth.dfy` | `Auth` | Credentials and `genAuthHeader`. |
| `requests.dfy` | `Requests` | The request queue, the specification of a drain step, batches, transport calls and completions. |
| `client.dfy` | `Client` | The `PubControlClient` class. |
| `pub_control.dfy` | `Control` | Configuration entries and the `PubControl` class. |

## How the model reads the code

- **Classes.**
  - `PubControlClient` and `PccCallbackHandler` are classes whose methods update their fields.
  - A `PubControl` is a class holding a `seq` of client references.
  - A client may be listed more than once. The fan-out contracts count its listings.
  - `PubControl.Finish` states what each listing meets: the first listing meets the client's queue, later listings meet an empty queue.
- **Thrown exceptions.** An `IllegalArgumentException` thrown by `export` is returned as an error value (`Result`/`Option`).
- **The worker thread.** The worker thread is modelled by its effect.
  - `PublishAsync` starts the worker (a flag) and appends a request.
  - `Finish` queues a stop request and runs drain steps (`WorkerStep`: drain, `pubBatch`, dispatch) until the stop request is taken. This is what `join` waits for.
- **Foreign code.** Base64, HS256 signing and the clock are fields of an `Environment` value. Each transport call's result is a `TransportOutcome` parameter, for the synchronous call of `publish` and for every batch of the worker alike: it returns, or it raises an exception carrying a message. The clock is read once per call into the model: every client that one `PubControl` call reaches signs with the same `nowMillis`.
- **Quirks kept exactly as the code has them:**
  - The basic header is the Base64 of `user:pass` without a `Basic ` prefix.
  - The JWT header is `Bearer` immediately followed by the token, with no space.
  - `pubBatch` always reports `result = true`, even when the transport raised. Only the message tells a failure apart.
  - `pubBatch` uses the header of the first request of the batch for the whole batch.
  - An item is never exported when there are no channels, so even an invalid item then yields no error.
  - A format named `id` or `prev-id` overwrites that entry.

## Model

| member | source | states |
|---|---|---|
| `Items.FirstRepeat` | src/org/fanout/pubcontrol/Item.java:37-45 | The scan of the formats finds a repeated class exactly when two formats share a class. The position it finds repeats an earlier class, and no duplicate precedes it. |
| `Items.FirstRepeatIs` | src/org/fanout/pubcontrol/Item.java:38-43 | A format repeating an earlier class, with no duplicate before it, is the position where `export` throws. |
| `Items.FormatEntriesSpec` | src/org/fanout/pubcontrol/Item.java:53-54 | The format entries have exactly the format names as keys. Each name maps to the payload of the last format with that name, so later formats win. |
| `Items.ExportedSpec` | src/org/fanout/pubcontrol/Item.java:36-57 | `export` fails exactly when two formats share a class, naming the class at the first repeat. Otherwise the keys are the present id keys plus the format names, and each name maps to the payload of its last format. `id`/`prev-id` are present iff non-null and non-empty, unless a format of that name overwrites them. |
| `Items.Export` | src/org/fanout/pubcontrol/Item.java:36-57 | The two loops of `export` compute `Exported`: the duplicate scan with its invariant, then the map puts in order. |
| `Callbacks.PccCallbackHandler.constructor` | src/main/java/org/fanout/pubcontrol/PccCallbackHandler.java:28-33 | A new handler has count `numCalls`, success true, no error message, and has fired nothing. |
| `Callbacks.PccCallbackHandler.Completed` | src/main/java/org/fanout/pubcontrol/PccCallbackHandler.java:43-52 | One completion: the first failure clears the flag and records its message. The count drops by one. At zero or below, the wrapped callback receives the current pair. |
| `Callbacks.CountDown` | src/main/java/org/fanout/pubcontrol/PccCallbackHandler.java:48 | After any run of completions, the count has dropped by exactly their number. |
| `Callbacks.StickyFailure` | src/main/java/org/fanout/pubcontrol/PccCallbackHandler.java:44-47 | The success flag is false iff some completion failed (or it already was). The error message is that of the first failing completion and is never overwritten. |
| `Callbacks.FiredCount` | src/main/java/org/fanout/pubcontrol/PccCallbackHandler.java:48-51 | The wrapped callback is called once for each completion that leaves the count at zero or below. Calls already made are kept. |
| `Callbacks.NoCallBeforeCount` | src/main/java/org/fanout/pubcontrol/PccCallbackHandler.java:48-50 | With a count of `n >= 1`, fewer than `n` completions never call the wrapped callback. |
| `Callbacks.CallAtCount` | src/main/java/org/fanout/pubcontrol/PccCallbackHandler.java:49-50 | The `n`-th completion calls the wrapped callback exactly once, with the sticky flag and the first error of the whole run. |
| `Callbacks.AllSuccessReportsTrue` | src/test/java/org/fanout/pubcontrol/PccCallbackHandlerTest.java:18-29 | If all `n` completions succeed, the wrapped callback receives `(true, null)`. |
| `Callbacks.ExtraCompletionsCallAgain` | src/main/java/org/fanout/pubcontrol/PccCallbackHandler.java:49-50 | Every completion beyond the `n`-th calls the wrapped callback again. |
| `Callbacks.CompleteAllAppend` | src/main/java/org/fanout/pubcontrol/PccCallbackHandler.java:43-52 | Completions are processed one at a time: running `a` then `b` is running `a + b`. |
| `Callbacks.Dispatch` | src/main/java/org/fanout/pubcontrol/PubControlClient.java:191-193 | The `completed` calls are made in order. Each handler ends in the state of its old state run over exactly the outcomes addressed to it. |
| `Auth.SignedClaims` | src/main/java/org/fanout/pubcontrol/PubControlClient.java:155-158 | The signed claims copy the configured ones. `exp` is set to one hour after now only when the configured claims lack it. |
| `Auth.AuthHeader` | src/main/java/org/fanout/pubcontrol/PubControlClient.java:144-165 | With user and password both set, the header is the Base64 of `user:pass`. Otherwise, with JWT claims set, it is `Bearer` plus the signed token. Otherwise there is no header. |
| `Auth.BasicOverridesJwt` | src/main/java/org/fanout/pubcontrol/PubControlClient.java:145-152 | With basic credentials set, any stored JWT credentials are ignored. |
| `Auth.JwtHeaderShape` | src/main/java/org/fanout/pubcontrol/PubControlClient.java:161 | A JWT header is the six letters `Bearer` followed directly by the token. |
| `Requests.ContinueTakes` | src/main/java/org/fanout/pubcontrol/PubControlClient.java:257-265 | The request-by-request loop of a drain step computes the drain step, whatever it has taken so far coming first. |
| `Requests.TakeBatchSplits` | src/main/java/org/fanout/pubcontrol/PubControlClient.java:257-265 | A drain step splits the queue into its batch, then the stop request if it quit, then the rest. The batch holds at most the room left. Requests stay behind without a quit only when the batch is full. |
| `Requests.DrainSplits` | src/main/java/org/fanout/pubcontrol/PubControlClient.java:256-265 | A drain step takes at most ten requests in FIFO order. On a stop request it quits, leaving everything behind the stop request queued. |
| `Requests.TakePublishes` | src/main/java/org/fanout/pubcontrol/PubControlClient.java:257-264 | Publish requests ahead of anything else are taken in order, up to the room left. |
| `Requests.DrainFifteen` | src/main/java/org/fanout/pubcontrol/PubControlClient.java:257 | With fifteen publish requests queued, one drain step takes the first ten and leaves five. |
| `Requests.DrainBeforeStop` | src/main/java/org/fanout/pubcontrol/PubControlClient.java:257-262 | Publish requests before a stop: fewer than ten are taken with the stop and the worker quits. Otherwise ten are taken and the stop stays queued. |
| `Requests.BatchCompletions` | src/main/java/org/fanout/pubcontrol/PubControlClient.java:184-193 | After a batch there is exactly one completion per non-null callback, in request order, all with the same `(true, message)` pair. |
| `Requests.FailedBatchReportsSuccess` | src/main/java/org/fanout/pubcontrol/PubControlClient.java:184-190 | Even when the transport raised, every callback receives result `true` with the exception's message. |
| `Requests.ChunksCover` | src/main/java/org/fanout/pubcontrol/PubControlClient.java:240-269 | The batches a worker sends before a stop request cover the pending requests exactly once and in order. Each batch holds one to ten requests, and all but the last hold ten. |
| `Requests.RunCompletesEachCallback` | src/main/java/org/fanout/pubcontrol/PubControlClient.java:240-269 | Across a run of batches, every non-null callback is completed exactly once, in the order its request was queued. |
| `Requests.RunItemsFlatten` | src/main/java/org/fanout/pubcontrol/PubControlClient.java:178-187 | The calls of a run of batches carry, one call after another, the exports of all their requests in order. |
| `Requests.RunSendsEachExport` | src/main/java/org/fanout/pubcontrol/PubControlClient.java:240-269 | Every export queued before a stop request is sent exactly once and in queue order by the worker's calls. |
| `Requests.UniformRunCompletions` | src/main/java/org/fanout/pubcontrol/PubControlClient.java:184-193 | When every batch meets the same transport outcome, the callbacks receive exactly what one batch of all the requests would give them, so the cut into batches is invisible to them. |
| `Requests.DrainHandlers` | src/main/java/org/fanout/pubcontrol/PubControlClient.java:256-268 | A drain step reaches only handlers referred to by the queue it drains. |
| `Client.ChannelExportsSpec` | src/main/java/org/fanout/pubcontrol/PubControlClient.java:85-90 | With no channels there are no exports and no error. Otherwise it fails iff the item does, with its error. Each export is the item's record with `channel` set to its channel, one per channel in order. |
| `Client.BuildExports` | src/main/java/org/fanout/pubcontrol/PubControlClient.java:65-70 | The export loop exports the item once per channel and computes `ChannelExports`. The first export error aborts it. |
| `Client.PubControlClient.constructor` | src/main/java/org/fanout/pubcontrol/PubControlClient.java:40-42 | A new client has the given uri, no credentials, no worker and an empty queue. |
| `Client.PubControlClient.SetAuthBasic` | src/main/java/org/fanout/pubcontrol/PubControlClient.java:46-51 | It replaces the basic user and password and no other credential. |
| `Client.PubControlClient.SetAuthJwt` | src/main/java/org/fanout/pubcontrol/PubControlClient.java:55-60 | It replaces the JWT claims and key and no other credential. |
| `Client.PubControlClient.Publish` | src/main/java/org/fanout/pubcontrol/PubControlClient.java:64-78 | It makes a call iff the exports succeed. The call goes to the client's uri with the current header and all exports. An export error is raised with no call. Otherwise it raises iff the transport raised, carrying the exception's message. |
| `Client.PubControlClient.EnsureThread` | src/main/java/org/fanout/pubcontrol/PubControlClient.java:122-127 | Afterwards a worker runs. A new one is started only when none was running. |
| `Client.PubControlClient.QueueReq` | src/main/java/org/fanout/pubcontrol/PubControlClient.java:133-138 | The request is appended at the tail of the queue. |
| `Client.PubControlClient.PublishAsync` | src/main/java/org/fanout/pubcontrol/PubControlClient.java:84-100 | On an export error nothing changes. Otherwise a worker runs, and exactly one publish request is appended to the queue. It carries the uri and header of that moment, the exports and the callback. |
| `Client.PubControlClient.DrainBatch` | src/main/java/org/fanout/pubcontrol/PubControlClient.java:256-265 | The inner loop of `run` takes exactly what the drain step `Drain` takes from the queue, and leaves the rest queued. |
| `Client.PubControlClient.PubBatch` | src/main/java/org/fanout/pubcontrol/PubControlClient.java:174-194 | An empty batch makes no call. Otherwise one call is made with the first request's header and all exports in order, followed by one completion per non-null callback with the batch's pair. |
| `Client.PubControlClient.WorkerStep` | src/main/java/org/fanout/pubcontrol/PubControlClient.java:256-268 | One pass of the worker drains a batch, publishes it and dispatches its completions. Each handler advances by exactly the outcomes addressed to it. |
| `Client.PubControlClient.RunToStop` | src/main/java/org/fanout/pubcontrol/PubControlClient.java:240-270 | With a stop request behind pending requests `rest`, the worker sends `Chunks(rest)` and then stops with an empty queue. Each batch makes its call, and the handlers receive the run's completions. |
| `Client.PubControlClient.Finish` | src/main/java/org/fanout/pubcontrol/PubControlClient.java:105-116 | Every pending request is sent, in order, in batches of ten and a last shorter one. Without a worker nothing is pending, so nothing is sent. Afterwards no worker runs, the queue is empty, and every handler has received exactly its outcomes. |
| `Control.EntryCredentials` | src/main/java/org/fanout/pubcontrol/PubControl.java:59-65 | A configured client gets JWT credentials, with claims exactly `{iss}` and the entry's key, iff the entry has both an issuer and a key. Otherwise it has no credentials. |
| `Control.ConfiguredHeader` | src/main/java/org/fanout/pubcontrol/PubControl.java:59-65 | A configured client sends no header unless its entry held an issuer and a key. In that case it sends `Bearer` plus a token over `iss` and an expiry one hour ahead. |
| `Control.PubControl.constructor` | src/main/java/org/fanout/pubcontrol/PubControl.java:25-29 | Without a configuration there are no clients. With one, there is one new client per entry, in entry order, configured as its entry says. The clients are fresh and pairwise distinct, even for equal entries. |
| `Control.PubControl.RemoveAllClients` | src/main/java/org/fanout/pubcontrol/PubControl.java:34-36 | The client list is empty afterwards. |
| `Control.PubControl.AddClient` | src/main/java/org/fanout/pubcontrol/PubControl.java:41-43 | The client is appended at the end, even when it is already listed. |
| `Control.PubControl.ApplyConfig` | src/main/java/org/fanout/pubcontrol/PubControl.java:53-68 | Exactly one new client per entry is appended, in entry order, after the untouched existing clients. The new clients are fresh and pairwise distinct. Each has the entry's uri (none when absent) and the entry's credentials, and is idle. |
| `Control.PubControl.NewConfigured` | src/main/java/org/fanout/pubcontrol/PubControl.java:55-65 | The client built for one entry has the entry's uri and credentials and is idle. |
| `Control.PubControl.Publish` | src/main/java/org/fanout/pubcontrol/PubControl.java:82-87 | The clients call in list order, each with its uri and header. An export error aborts at the first client before any call. When the exports succeed, the only error it can raise is a transport error. It succeeds iff no client's transport raised, and then every listed client has called. Otherwise the calls stop at the first client whose transport raised: that client has called, no later client has, and its message is raised. |
| `Control.PubControl.PublishAsync` | src/main/java/org/fanout/pubcontrol/PubControl.java:93-100 | Without a callback the requests carry none. With one, a fresh handler counting one completion per listed client is shared by all requests. On an export error nothing changes. Otherwise every client runs a worker and has one request appended per listing. |
| `Control.PubControl.NewCallback` | src/main/java/org/fanout/pubcontrol/PubControl.java:95-97 | A handler is created only when there is a callback, with the client count and that callback. |
| `Control.PubControl.FanOut` | src/main/java/org/fanout/pubcontrol/PubControl.java:98-99 | Each client in turn queues the request. A client listed `m` times queues `m` copies. An export error at the first client leaves every queue and worker flag as it was. |
| `Control.PubControl.Finish` | src/main/java/org/fanout/pubcontrol/PubControl.java:73-77 | The clients are finished in list order. Afterwards no worker runs and every queue is empty. Each listing's calls are one per chunk of ten of the pending requests of the queue it meets, in order, to the client's uri with each chunk's first header and all its exports. Each listing's completions are those of the queue it meets, and every waiting handler has received exactly its outcomes. |

## Left out

- Threads, locks, condition waits, `join` and `InterruptedException`: the worker runs only inside `finish`.
  - A real worker may drain while requests are still arriving, so its batch boundaries depend on scheduling.
  - The model fixes them to what a worker that starts draining at `finish` sends.
  - The wait on an empty queue is not modelled.
- Base64 encoding, HS256 signing and the current time: they are functions and a number in an `Environment` value.
  - The time is read once per modelled call. Java reads the clock separately in each client's `genAuthHeader`, so within one `PubControl.publish` or `publishAsync` the `exp` claims of the clients' tokens can differ in Java but not in the model.
  - The `UnsupportedEncodingException` branch for `utf-8` is not modelled.
  - Neither are JWT library errors for unusable keys.
- `pubCall` is an empty method. Each call's result is given as a `TransportOutcome` instead, including exceptions it cannot raise as written.
- User `PublishCallback` implementations are outside the model. A completion addressed to one is produced, but its effect is not modelled.
- `Format` is an interface. A format is a value holding its runtime class, its name and its exported payload.
- `PublishFailedException` only has constructors and is never thrown by the modelled code.
- `src/org/fanout/pubcontrol/PubControlClient.java` is an empty class and is not part of this model.
- Configuration entries are typed. The `ClassCastException` a wrongly typed `uri`, `iss` or `key` would raise is not modelled.
- `Callbacks.PccCallbackHandler.Completed` does not model 32-bit wrap-around of `numCalls`, because the count is an unbounded integer. For a handler created with count `n`, Java's count wraps from -2^31 to 2^31-1 at completion `n + 2^31 + 1`. Java then skips the wrapped callback for the next 2^31-1 completions, while the model keeps calling it. For the non-negative counts `PubControl` passes (its number of clients), that takes more than 2^31 completions. A handler created directly with a negative count reaches it sooner. With count -2^31, it reaches it at the first completion.
