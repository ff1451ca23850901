# dktrace-dd-agent, modelled in Dafny

The program is a load generator for a Datadog-style tracing pipeline. It
has two halves.

- **The trace generator** (`app.go`). It reads a configured forest of span
  descriptors. It computes a per-span dump budget from the node count and
  picks a root: the single top-level node, or a synthetic
  `start_root_span` of 10 ms. It then walks the forest below the root. The
  walk starts one tracer span per node below the root, under the span of
  the enclosing node. Each of these spans gets the node's resource, type
  and tags, an error exactly when the node declares one, and a random hex
  dump tag when the budget is non-zero. The root never gets a dump tag,
  although a single top-level root node is counted in the budget.
- **The mock agent** (`agent.go`). It receives the tracer's payloads. It
  always answers 200, then drops payloads that announce zero traces. With
  no sender configured it closes the shutdown channel. Otherwise it starts
  a sending task. The task decodes the body, and a body that does not
  decode ends the process with a fatal log. It copies the decoded batch
  once per thread. Each copy is posted `SendCount` times, and before every
  post it is re-stamped with a freshly drawn trace identifier. Failed posts
  are skipped. The task closes the shutdown channel at the end.

Modules, one per concern:

- `Wrappers`: `Option` and `Result`.
- `SpanTree`: the configuration types, the structural node count
  `ForestSize`, the pre-order `Flatten`, and `countSpans`.
- `Hex`: hex encoding and decoding, and `getRandomHexString`.
- `Executor`:
  - the dump budget, `startRootSpan`, `startSpanFromContext`,
    `orchestrator` and the whole run;
  - the tracer is replaced by the list of span records it is asked to
    produce. Span identifiers are pre-order positions, and the root is 0.
- `Nesting`: the parent each node's span is started under, and what
  grouping spans by parent gives back.
- `Traces`:
  - the agent's `pb.Traces` batches over a heap of span records, so that
    pointer identity is visible;
  - `duplicate`, `modifyIDs`, and Go's `uint64(int64)` conversion.
- `Sender`: the Threads × SendCount grid of `sendDDTraceTask`.
- `Closer`: the shutdown channel, with Go's `close` and a once-guarded
  close.
- `Agent`: `handleDDTraceData`, and the agent process as a state machine
  over request arrivals and task completions.

Injected parameters:

- The random bytes of the dump tags come from `entropy`.
- Trace identifiers come from `ids` at a cursor.
- The outcome of each post comes from `net`.
- Decoding the posted body is an `Option<Decoded>` handed to the task.

## Behaviour worth knowing

- **A node has no sequential or simultaneous mode.** Several children
  each get a goroutine; a single child runs inline.
- **The body is never checked for emptiness.** A trace-count header of
  `"0"`, or an unconfigured sender, ends a request before its body is
  read.
- **The HTTP client has no timeout.** Posts go through
  `http.DefaultClient`, so a post to an endpoint that never answers blocks
  its replica for good, and the task never reaches its close.
- **One identifier per batch and per post.** `modifyIDs` draws one
  identifier for the whole batch on every iteration, so all traces of one
  post share it. Distinct posts get distinct identifiers when the source
  does not repeat (`Sender.DistinctTraceIDs`).
- **The shutdown channel is not closed exactly once.** Every task closes
  it when it completes, and so does every unconfigured request that
  announces traces (see Findings).
- **A small dump gives no dump tags.** The per-span share of `dump_size`
  is truncated to whole kilobytes, so a `dump_size` below the node count
  gives every span a budget of 0 (`Executor.SmallDumpNoBudget`).

## Model

| member | source | states |
|---|---|---|
| SpanTree.CountSpansTotal | app.go:70-79 | `countSpans(t, c)` is `c` plus the number of nodes of the forest `t`, counted structurally |
| SpanTree.CountSpansEmpty | app.go:70-79 | the accumulator comes back unchanged exactly when the forest is empty; from 0 the count is the length of the pre-order node list |
| Executor.DumpBudget | app.go:55-60 | no dump gives 0. A dump over an empty trace is a division by zero (an error result). Otherwise the budget is a whole number of kB, times the node count it is at most `dump_size` kB, and it comes within one kB per node of that, which makes it `(dump_size / nodes) * 1000` |
| Executor.SmallDumpNoBudget | app.go:55-60 | a `dump_size` below the node count gives a budget of 0, so no span gets a dump tag |
| Executor.Half | app.go:104-106 | `Duration / 2` truncates toward zero: two halves sum to `d` or `d - 1` for `d >= 0` (to `d` or `d + 1` below 0), exactly `d` iff `d` is even |
| Executor.StartRootSpan | app.go:81-111 | a single top-level node is the root: its operation, tags and error, and its children walked next. Otherwise the root is the synthetic `start_root_span` with no tags or error, and the whole trace is walked. The root has id 0, no parent, no dump, and two equal sleeps whose sum is within one nanosecond below its duration |
| Executor.StartSpan | app.go:143-166 | the span of a node: the given parent and id, the node's operation, then resource, type and user tags in order. Error iff the node's error string is non-empty. Dump tag iff the budget is non-zero, of `2 * fillup` hex digits. One sleep of `Duration` ms |
| Hex.RandomHexString | app.go:136-141 | `2n` characters, all lower-case hex digits, decoding back to exactly the `n` drawn bytes |
| Hex.DecodeEncode | app.go:140 | hex decoding undoes `hex.EncodeToString` |
| Hex.EncodeDecode | app.go:140 | every valid hex string is the encoding of what it decodes to |
| Executor.OrchestrateIsFan | app.go:113-134 | the single-child branch of `orchestrator` produces the same spans as the fan-out branch would |
| Executor.OrchestrateCount | app.go:113-134 | `orchestrator` starts `countSpans(children, 0)` spans, none for an empty list |
| Executor.FanShape | app.go:113-134 | the walk starts one span per node in pre-order. Span `k` has id `base + k`, carries node `k` and a fitting dump, and is started under the span of the node that encloses it |
| Executor.FanLength | app.go:113-134 | the walk has exactly one span per configured node |
| Nesting.TopLevel | app.go:113-134 | the nodes placed directly under the enclosing context are exactly the forest's top-level nodes, in order |
| Nesting.Inner | app.go:113-134 | the nodes placed under any node of the forest are exactly that node's configured children, in order |
| Executor.TopLevelChildren | app.go:113-134 | grouping the walk's spans by parent, the enclosing span gets exactly the top-level nodes |
| Executor.InnerChildren | app.go:113-134 | grouping the walk's spans by parent, every span gets exactly its node's configured children |
| Executor.Run | app.go:55-63 | a run fails exactly when a dump is configured over an empty trace |
| Executor.RunSingleRecords | app.go:62-63 | with one top-level node a run emits `countSpans(trace, 0)` spans in pre-order. Span `k` is numbered `k` and carries node `k`. The root has no parent; every other span has a fitting dump |
| Executor.RunSingleChildren | app.go:62-63 | with one top-level node the emitted parent links rebuild the configured tree: under span `id` lie exactly node `id`'s children |
| Executor.RunManyRecords | app.go:62-63 | with zero or several top-level nodes a run emits the synthetic root and then `countSpans(trace, 0)` spans. Span `k + 1` carries node `k` and a fitting dump |
| Executor.RunManyChildren | app.go:62-63 | with zero or several top-level nodes the synthetic root holds exactly the top-level nodes, and under every other span lie exactly its node's children |
| Traces.ToUint64 | agent.go:138 | `uint64(int64)` is the identity on non-negative values |
| Traces.SameBits | agent.go:138 | `uint64(int64)` and its inverse keep the value modulo 2^64, that is, the bits |
| Traces.CastInjective | agent.go:138 | distinct drawn identifiers give distinct trace identifiers, and conversely |
| Traces.CopyTrace | agent.go:109-126 | the spans of one trace are copied into fresh consecutive records, field for field; older records are untouched |
| Traces.Duplicate | agent.go:106-130 | same number of traces, each of the same length. Every pointer is a fresh record equal field for field to the source span, so the same `Meta`/`Metrics`/`MetaStruct` maps are shared. No existing record changes |
| Traces.DuplicateFresh | agent.go:106-130 | every copy is a record that did not exist before, and two copies coincide only at the same position |
| Traces.DerefCopy | agent.go:111-125 | a copied batch serialises to the same span values as its source |
| Traces.StampTrace | agent.go:145-147 | every span of one trace gets the trace identifier; every other record is unchanged |
| Traces.ModifyIDs | agent.go:132-148 | an empty batch is left alone and draws nothing. Otherwise one identifier is drawn and every span of every trace gets it, with no other field changed. Records outside the batch are untouched |
| Traces.ModifiedValues | agent.go:132-148 | after `modifyIDs` the batch serialises as its former values with the drawn trace identifier |
| Traces.StampRowAt | agent.go:145-147 | stamping a trace sets the trace identifier of every span and leaves the rest of each span as it was |
| Traces.StampAt | agent.go:139-147 | stamping a batch stamps each of its traces, empty ones included |
| Traces.StampKeeps | agent.go:145-147 | stamping changes the trace identifier only; span and parent identifiers survive |
| Traces.StampKeepsLinks | agent.go:145-147 | stamping preserves every parent/child link inside a trace, both ways |
| Traces.StampTwice | agent.go:77-78 | re-stamping an already stamped batch is stamping with the last identifier |
| Sender.Worker | agent.go:77-98 | one goroutine's loop makes `SendCount` posts. Post `j` carries the copy's values stamped with the `j`-th drawn identifier (unstamped and empty for an empty batch) and the forwarded endpoint and headers, whatever the network does. Only the copy's records change |
| Sender.Send | agent.go:78-97 | one post: the copy is re-stamped with the drawn identifier (an empty copy draws none), serialised and posted. The attempt carries the decoded values stamped with that identifier, whatever the network does. Only the copy's records change |
| Sender.Round | agent.go:71-99 | one turn of the replica loop: post `j` of its row carries the decoded values stamped with the `j`-th identifier drawn for this replica, and the decoded records are kept |
| Sender.Replicate | agent.go:69-101 | the grid has `Threads` rows of `SendCount` posts, each the expected one. Identifiers are drawn `Threads * SendCount` times for a non-empty batch, none for an empty one. The decoded records are never written |
| Sender.SendDDTraceTask | agent.go:61-104 | the task is fatal exactly when the body does not decode. Otherwise, with every post returning, it completes the whole grid |
| Sender.AttemptCount | agent.go:69-101 | a task makes exactly `Threads * SendCount` posts, failed ones included |
| Sender.DrawIndexInjective | agent.go:71-78 | different posts use different draws of the identifier source |
| Sender.DistinctTraceIDs | agent.go:71-99 | when the identifier source does not repeat, posts carry pairwise distinct trace identifiers |
| Sender.SamePayloadUpToTraceID | agent.go:77-79 | any two posts carry the same spans up to the trace identifier |
| Closer.Close | agent.go:48 | Go's `close` panics exactly on a closed channel and otherwise closes it |
| Closer.FireOnce | agent.go:103 | the once-guarded close leaves the channel closed whatever its state |
| Closer.FireOnceIdempotent | agent.go:103 | firing twice is firing once |
| Closer.FireOnceAgrees | agent.go:103 | on an open channel the guarded close is Go's close |
| Agent.Handle | agent.go:35-59 | 200 is written first. A zero trace count ends the request, even unconfigured. Otherwise exactly one of: closing the channel when a count is not positive, a fatal exit on an unreadable body, or a task with the configured counts, the body, the agent endpoint and the original headers |
| Agent.ArriveDispatches | agent.go:53-58 | a configured request with a readable body adds its task to the running ones |
| Agent.UnconfiguredSecondRequestPanics | agent.go:47-51 | as written, a second unconfigured request closes the closed channel and its handler panics; once-guarded, nothing panics |
| Agent.TwoTasksPanic | agent.go:101-103 | as written, two payloads start two tasks and the second to complete panics; once-guarded, both complete and the channel is closed |
| Agent.FinishHalts | agent.go:61-104 | for the once-guarded process, a running task ends the process with a fatal log exactly when its body does not decode; a task that completes closes the channel |
| Agent.UndecodableTaskExits | agent.go:61-65 | a configured agent whose task is given a body that does not decode ends with a fatal log, as written and once-guarded |
| Agent.ServeNeverPanics | agent.go:43-103 | with the once-guard no event sequence panics and no handler panic is recovered; only a fatal log ends the process early, for an unreadable body or a task whose body does not decode |
| Agent.RecoveredGrows | agent.go:47-51 | handler panics recovered by the server only accumulate |
| Agent.GuardAgrees | agent.go:101-103 | wherever the code as written handles every event without a panic, the once-guarded process ends in the same state |
| Agent.UnconfiguredServe | agent.go:43-51 | for the once-guarded process, unconfigured, no task ever starts. The channel ends closed iff it already was or some request announced traces |
| Agent.ConfiguredServe | agent.go:53-58 | for the once-guarded process, configured with readable bodies that every task decodes, the dispatched tasks are the earlier ones followed by each announcing request's own task, as the handler builds it, in arrival order; their number is the number of announcing requests |

## Left out

- The tracer client is left out (`tracer.Start`, `StartSpan`, `SetTag`, `Finish`, `Flush`). A span is the record of what it is asked to do. Tag overwrites by the tracer are not modelled. The tracer's own span and trace identifiers are replaced by pre-order positions.
- The tag keys `ResourceName`, `SpanType` and `DumpData` are defined in files that are not part of this model, and so is their spelling.
- Goroutines, `sync.WaitGroup` and real sleeps are left out:
  - the walk is linearised in pre-order, since goroutines change only the order in which spans are produced, not which spans exist or who their parents are;
  - the replicas of a task are linearised replica by replica, which fixes the order of draws from the identifier source;
  - sleeps are recorded as durations in the span record.
- Tag values are kept as text. In the configuration they are arbitrary JSON values.
- Executor.StartSpan: does not model int64 wrap-around of `Duration * time.Millisecond`, because integers are unbounded here.
- Executor.StartRootSpan: bounds the sum of the root's two sleeps only for a non-negative duration and does not model its int64 wrap-around. For a negative duration it states only that the two halves are equal.
- Executor.DumpBudget: does not model int64 wrap-around of `fillup *= 1000`.
- `init` (reading `config.json`), `startAgent` and `getTimeoutServer` are left out. They are configuration and server plumbing.
- The `ddtrace-data-sender` client is left out.
- The declaration of `globalCloser` lies outside the modelled files; `Closer.Closer` stands for the channel. `main`'s wait on it and the final `tracer.Flush` are left out.
- `idflk` is not part of this model. The identifier source is the injected `ids`.
- The declaration of `ddv4` lies outside the modelled files; the parameter `ddv4` of `Agent.Handle` stands for it.
- `agentAddress` is not part of this model.
- msgpack `UnmarshalMsg` is the injected `Option<Decoded>`. `MarshalMsg` is the span values a batch points to; its fatal error is left out.
- `http.NewRequest`, `http.DefaultClient.Do`, response logging and closing are left out. Each post's fate is the injected `NetOutcome`; every outcome lets the loop go on, and a post that never returns is not modelled (see the `Sender.SendDDTraceTask` line).
- `rand.Seed` and `crypto/rand` are left out. The dump bytes come from `entropy`.
- Request headers are assumed already canonical, as net/http stores them. Header logging is left out.
- A nil `cfg.Sender` pointer, which would panic in the handler, is left out.
- Sender.SendDDTraceTask: assumes every post returns, with some outcome, and that every decoded span pointer is non-nil. A post that never returns blocks the task before its close. A nil span pointer makes `duplicate` panic in a goroutine nothing recovers. Neither is modelled: posts are the injected `net`, and decoded batches are taken to hold only live records.
- `SendInterval` is read from the configuration but used nowhere.
- Negative counts passed to `sendDDTraceTask` directly would make `wg.Add` panic. The handler never passes them, and `Sender.Replicate` takes natural numbers.

## Findings

| source | as written | input that shows it | evidently intended | confidence | as-written member | corrected member |
|---|---|---|---|---|---|---|
| agent.go:47-51 and agent.go:101-103 | every unconfigured request and every completed sending task calls `close(globalCloser)` | two requests announcing traces to a configured agent (both tasks complete before the process exits), or two to an unconfigured agent | the shutdown channel is closed once, whoever gets there first | low: needs the second close to happen before `main` returns; not executed | Agent.ServeAsWritten, shown by Agent.TwoTasksPanic and Agent.UnconfiguredSecondRequestPanics | Agent.Serve with Closer.FireOnce, proved by Agent.ServeNeverPanics and Agent.GuardAgrees |

In the unconfigured case the panic happens in an HTTP handler. net/http
recovers it, so the request is dropped and the agent keeps serving. In a
sending task nothing recovers the panic, and the process dies.
