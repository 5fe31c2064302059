# Verification of the clawde cores

A Dafny model of the stateful cores of the clawde repository, with proofs about every run and
every input. Each module follows one source file and takes its form: an object whose methods
update its fields is a class, a loop is a method with invariants proved against a specification
function, and a concurrent protocol is a state machine over its atomic steps (a lock-protected
region, a channel operation or one SQL statement is one step). Where a class belongs to a
protocol, its methods are tied to the steps of the state machine.

| file | models |
|---|---|
| LspFraming.dfy | Content-Length framing of the language-server client: writer and reader loop |
| LspCorrelation.dfy | request/response correlation with concurrent calls, cancellation and shutdown |
| PtyPool.dfy | the pool of shell slots: borrowers, idle reaper, start and stop |
| SymbolIndex.dfy | full scan and incremental symbol ingestion |
| CircuitBreaker.dfy | the circuit breaker with its two-lock admission check |
| BpfFilter.dfy | the seccomp filter generator and an interpreter for its output |
| GraphExpander.dfy | bounded breadth-first graph expansion |
| RrfMerge.dfy | reciprocal rank fusion |
| GatewayStream.dfy, AnthropicStream.dfy | the streaming pipeline, its bounded buffer and its per-block accumulators |
| Ndcg.dfy | the NDCG evaluation metric |
| MarkdownChunker.dfy | splitting markdown at headings |
| PromptBudget.dfy | token budgeting of the context block |
| CompileCache.dfy | the per-workspace cache of compiled context |
| Quota.dfy | the daily request quota |
| Collections.dfy | optional values, lists without repetition, and picking an arbitrary element as ranging over a Go map does |

`dafny verify dfyconfig.toml` checks the whole project.

What comes from outside is a parameter or an open choice of a step: decoded JSON, file contents,
extractor results, token counts, the clock, process liveness, query answers and their order, the
speed of a consumer, the moment of a cancellation. Scores and discounts are real numbers. Byte
strings are sequences of bytes (`LspFraming`) or of chars that stand for bytes (`MarkdownChunker`).

## Where the code and its comments differ

For each, a lemma gives an input or run on which the comment fails, and another the exact condition
under which code and comment agree.

- Pool.Stop promises that Acquire fails afterwards. A slot that is still lent out when Stop returns
  goes back into the channel on Release, and a Start that has not finished does not look at the
  stop channel; a later Acquire can get either. `AcquireAfterStop` gives the condition for every
  run, `OrderlyStop` for runs that stop only after Start returned; `AcquireAfterStopExample` and
  `StopBeforeStartExample` give runs.
- The breaker's comments speak of one probe call in the half-open state; the code admits every call:
  `OneProbeIff`, `TwoProbesExample`.
- The budget's comments say that the lowest-scored items are dropped first. The code skips an item
  that does not fit and goes on, so a lower-scored one can survive: `DropsLowestIff`,
  `LowerSurvivesExample`.
- The chunker's comment ends a chunk at the next heading of equal or shallower depth; the code ends
  it at every heading: `DocumentedIff` and `DocumentedEndsIff` for the two readings of the comment,
  `DeeperHeadingExample`.
- NDCG is documented to lie in [0, 1]. A ranking that repeats a relevant id can exceed 1:
  `BoundIff` over all discounts, `BoundForOneDiscount` for each, `DuplicateExample`.
- The filter generator cuts the jump offset to a byte without a check. It is right exactly up to
  255 allowed numbers: `CorrectIff`, `FirstIsRefused`; the shipped list is far below
  (`ShippedFilter`).
- A file that stops extracting keeps its old rows in the incremental index, while a rescan of an
  empty table has none: `SettledAgrees`, `StaleRowsExample`.
- The gateway's file header promises an overflow error when the buffer is full. The error itself can
  find the buffer full and is then lost: `OverflowReportedIff`, `SilentCutExample`.

One more observation: a Call that returns because the client closed does not remove its entry from
the in-flight table (`LeftBehindIff`, `LeftForGood`, `LeftBehindExample`).

## Model

| member | source | states |
|---|---|---|
| LspFraming.Start | intelligence/internal/lsp/client.go:93-159 | the read loop yields exactly the bodies, ending and unread input of the reader specification, for every input and every moment of cancellation |
| LspFraming.DecimalRoundTrip | intelligence/internal/lsp/client.go:119-121 | reading a printed length gives the length back, for every length a Go slice can have |
| LspFraming.FrameIsWire | intelligence/internal/lsp/client.go:208-216 | what the client writes is the general frame with no other header field |
| LspFraming.HeaderReads | intelligence/internal/lsp/client.go:104-127 | the header part of any frame announces the length of its body, with any fields before its Content-Length, earlier lengths included, and other fields after it |
| LspFraming.PaddedLength | intelligence/internal/lsp/client.go:119-121 | a length is read whatever white space stands around it |
| LspFraming.SkipsHeaderWithoutLength | intelligence/internal/lsp/client.go:124-127 | a header part without a Content-Length is skipped and reading goes on behind it |
| LspFraming.AtoiOfNumber | intelligence/internal/lsp/client.go:120 | digits with or without a sign are read as their number, cut to the range of an int |
| LspFraming.AtoiOfGarbage | intelligence/internal/lsp/client.go:120 | anything else is read as 0, unless too many digits come first |
| LspFraming.LengthWithoutNumber | intelligence/internal/lsp/client.go:119-135 | a Content-Length without a number delivers an empty body and reading goes on behind the header |
| LspFraming.ReadFrames | intelligence/internal/lsp/client.go:96-135 | complete frames are delivered in order and reading continues right behind them, whatever follows |
| LspFraming.RoundTrip | intelligence/internal/lsp/client.go:103-135 | the reader run on the concatenation of any finite sequence of frames yields exactly their bodies in order and consumes all input |
| LspFraming.CancelledBetweenFrames | intelligence/internal/lsp/client.go:97-101 | a context found done between frames leaves all later frames unread and delivers all earlier ones |
| LspFraming.HeaderCut | intelligence/internal/lsp/client.go:105-113 | a header cut short is never taken for a complete one |
| LspFraming.FrameCut | intelligence/internal/lsp/client.go:103-135 | a proper prefix of one frame delivers nothing and ends the loop with the header error or the body error, by where the cut lies |
| LspFraming.Truncated | intelligence/internal/lsp/client.go:103-135 | a stream cut at any byte delivers exactly the bodies of the frames that arrived completely |
| LspCorrelation.RunInv | intelligence/internal/lsp/client.go:143-226 | the correlation invariant holds after every interleaving of calls, deliveries, cancellations, write errors and shutdown |
| LspCorrelation.AtMostOneValue | intelligence/internal/lsp/client.go:143-153 | over every run at most one value ever enters the channel of a call |
| LspCorrelation.ReaderNeverBlocks | intelligence/internal/lsp/client.go:151-153 | the reader never blocks on a send, after a delivery or inside cancelAll |
| LspCorrelation.OwnAnswer | intelligence/internal/lsp/client.go:182-196 | a call that got a value got a reply with its own id as it came over the wire, or the error of the shutdown that happened |
| LspCorrelation.RepliesAreNotShared | intelligence/internal/lsp/client.go:162-173 | no reply answers two calls |
| LspCorrelation.ReplyReachesItsCall | intelligence/internal/lsp/client.go:143-192 | a reply that finds its call registered is handed over at once; a waiting call can take it and then returns exactly this reply |
| LspCorrelation.ShutdownReachesItsCall | intelligence/internal/lsp/client.go:188-226 | a call that waits while cancelAll comes to its entry can take the transport error and returns it |
| LspCorrelation.CallCanWait | intelligence/internal/lsp/client.go:162-182 | a new call gets the next id and can go on to wait, with its entry in the table and its channel empty |
| LspCorrelation.CallCanGiveUp | intelligence/internal/lsp/client.go:164-187 | a failed encoding returns and touches nothing; a failed write or a finished context takes the entry out and returns that error |
| LspCorrelation.IdleReader | intelligence/internal/lsp/client.go:97-153 | a reply nobody waits for changes nothing; a broken transport enters cancelAll; a finished context closes the client without touching the table |
| LspCorrelation.ResultsAreCaused | intelligence/internal/lsp/client.go:162-195 | over every run, each result of a call tells which step it took |
| LspCorrelation.CancelAllFinishes | intelligence/internal/lsp/client.go:219-226 | from inside cancelAll the table can always be emptied and the lock released, in one step per entry |
| LspCorrelation.NobodyIsStranded | intelligence/internal/lsp/client.go:182-195 | when the reader has exited every unfinished call can still move on |
| LspCorrelation.LeftBehindIff | intelligence/internal/lsp/client.go:182-195 | over every run, a returned call has an entry left in the table if and only if it returned because the client closed and nothing had been sent to it |
| LspCorrelation.LeftForGood | intelligence/internal/lsp/client.go:193-194 | such an entry stays in every continuation |
| LspCorrelation.LeftBehindExample | intelligence/internal/lsp/client.go:97-101 | a run that leaves one: the reader stops with the context while a call waits |
| LspCorrelation.EntriesCanBeFlushed | intelligence/internal/lsp/client.go:219-226 | in every reachable state the sends of cancelAll find room |
| LspCorrelation.FlushTable | intelligence/internal/lsp/client.go:222-225 | in whatever order cancelAll ranges over the table, exactly the listed entries leave it |
| LspCorrelation.FlushChannel | intelligence/internal/lsp/client.go:222-225 | in whatever order, exactly the channels of those entries gain the transport error, once |
| LspCorrelation.Client.constructor | intelligence/internal/lsp/client.go:77-83 | a new client has no call in flight and is the initial state of the protocol |
| LspCorrelation.Client.NewId | intelligence/internal/lsp/client.go:163 | ids are handed out one by one |
| LspCorrelation.Client.Register | intelligence/internal/lsp/client.go:170-173 | the registration region of Call |
| LspCorrelation.Client.Forget | intelligence/internal/lsp/client.go:176-178 | the removal region of a call that gives up |
| LspCorrelation.Client.Take | intelligence/internal/lsp/client.go:145-150 | the reader's region: look up and remove in one step |
| LspCorrelation.Client.Send | intelligence/internal/lsp/client.go:151-153 | a channel send that does not block |
| LspCorrelation.Client.CancelAll | intelligence/internal/lsp/client.go:219-226 | the loop of cancelAll flushes every entry, in some order |
| PtyPool.RunInv | intelligence/internal/pty/pool.go:142-283 | in every run each slot ever created is in exactly one place, once, and the places taken never exceed those provided |
| PtyPool.NeverOverfull | intelligence/internal/pty/pool.go:194-233 | queued, borrowed, returning and reaper-held slots never exceed the pool size |
| PtyPool.SendsFindRoom | intelligence/internal/pty/pool.go:227-232 | no send waits: not Start's, not the reaper's, and Release's pool-full branch is unreachable |
| PtyPool.PlacesAreKept | intelligence/internal/pty/pool.go:142-283 | while the pool is not stopped, the places Start provided are exactly those taken and those lost where a process could not be started |
| PtyPool.ReaperRuns | intelligence/internal/pty/pool.go:161-164 | a started pool has its reaper running until it is stopped, and it is stopped exactly once Stop was called |
| PtyPool.KilledOnceAndGone | intelligence/internal/pty/pool.go:68-81 | no slot is killed twice, and a killed slot is nowhere else |
| PtyPool.StopKillsAll | intelligence/internal/pty/pool.go:171-188 | when a Stop returns, in any run, every slot ever created has been killed exactly once if and only if no caller, Release, Start or reaper holds one |
| PtyPool.DeadForever | intelligence/internal/pty/pool.go:142-283 | once nobody holds a slot or will make one, no continuation creates or hands out a slot |
| PtyPool.AcquireAfterStop | intelligence/internal/pty/pool.go:169-203 | after a Stop returns, in any run, some continuation lets Acquire succeed if and only if somebody holds a slot, a Release or the reaper is replacing one, or Start has an iteration left |
| PtyPool.OrderlyStop | intelligence/internal/pty/pool.go:169-188 | when Stop is called only after Start returned, both conditions come down to slots that are lent out, being released or being replaced by a Release |
| PtyPool.AcquireAfterStopExample | intelligence/internal/pty/pool.go:227-232 | a run in which Stop returns while a slot is lent out and Acquire can succeed later |
| PtyPool.StopBeforeStartExample | intelligence/internal/pty/pool.go:142-167 | a run in which Stop returns with all slots killed and none lent out, and a late Start lets Acquire succeed |
| PtyPool.Pool.constructor | intelligence/internal/pty/pool.go:105-122 | a size below one becomes the default of four |
| PtyPool.Pool.Start | intelligence/internal/pty/pool.go:142-167 | the first call puts one new slot into the channel for each process that starts, numbered in order, and fails exactly when none does; later calls do nothing |
| PtyPool.Pool.Acquire | intelligence/internal/pty/pool.go:194-203 | hands out the oldest slot and nothing else changes, or exactly when an error is ready and preferred or the channel is empty, the error |
| PtyPool.Pool.Release | intelligence/internal/pty/pool.go:208-233 | returns a live slot, replaces a dead one, or shrinks the pool; nothing else changes |
| PtyPool.Pool.Drain | intelligence/internal/pty/pool.go:255-264 | the reaper's first loop collects the whole channel in order |
| PtyPool.Pool.ReaperTick | intelligence/internal/pty/pool.go:254-283 | exactly which slots one pass puts back, kills and makes, in order |
| PtyPool.SweepReplaces | intelligence/internal/pty/pool.go:266-282 | a pass over a running pool kills exactly the idle slots, keeps the others and makes a slot for each idle one whose process can be started; no place is lost if all can |
| PtyPool.Pool.AwaitReaper | intelligence/internal/pty/pool.go:178 | from wherever the reaper stands it comes to an end, and what it and the channel held is queued or killed |
| PtyPool.Pool.Stop | intelligence/internal/pty/pool.go:171-188 | waits for the reaper, then kills every slot the reaper and the channel held, and touches nothing else |
| SymbolIndex.Pipeline.FullScan | intelligence/internal/repointel/ingestion.go:69-129 | on an empty table the scan of a directory tree builds the table its files call for; on another table it replaces and adds but never deletes |
| SymbolIndex.Walk | intelligence/internal/repointel/ingestion.go:76-89 | the walk finds exactly the files with a supported extension below no skipped directory |
| SymbolIndex.ExtensionIs | intelligence/internal/repointel/ingestion.go:87 | the extension of a name is its last dot and what follows |
| SymbolIndex.UpsertIs | intelligence/internal/repointel/ingestion.go:30-36 | a batch leaves for each key the last record that carries it, and the old row if none does |
| SymbolIndex.Pipeline.HandleChange | intelligence/internal/repointel/ingestion.go:149-185 | one event's effect on the table |
| SymbolIndex.Pipeline.Run | intelligence/internal/repointel/ingestion.go:133-146 | the event loop composes the effects in order |
| SymbolIndex.AgreesUnique | intelligence/internal/repointel/ingestion.go:30-36 | the table the files call for is unique |
| SymbolIndex.HandleOther | intelligence/internal/repointel/ingestion.go:151-182 | an event of one file leaves the rows of all others alone |
| SymbolIndex.HandleTrue | intelligence/internal/repointel/ingestion.go:158-177 | an event that tells the truth brings its file in sync unless the content does not extract |
| SymbolIndex.WriteIsIndexed | intelligence/internal/repointel/ingestion.go:158-182 | one write, reported and handled, leaves exactly the new content's rows for that file if it extracts, and all other rows alone |
| SymbolIndex.RemovalIsIndexed | intelligence/internal/repointel/ingestion.go:150-157 | one removal, reported and handled, takes out exactly that file's rows |
| SymbolIndex.RunInv | intelligence/internal/repointel/ingestion.go:133-185 | at every moment each settled file is in sync, failing to extract, or has a truthful event pending |
| SymbolIndex.RowsAreKept | intelligence/internal/repointel/ingestion.go:149-185 | at every moment of every run, settled or not, the rows of a file are those of the last content that a handled write extracted, or of the first scan, unless a handled removal came later |
| SymbolIndex.IncrementalEqualsFullScan | intelligence/internal/repointel/ingestion.go:69-185 | once events have caught up, the incremental table equals the one a full scan builds on the final files |
| SymbolIndex.SettledAgrees | intelligence/internal/repointel/ingestion.go:164-168 | with extraction failures allowed, the two agree if and only if the history of the run keeps nothing of a visible file whose final content fails to extract |
| SymbolIndex.StaleRowsExample | intelligence/internal/repointel/ingestion.go:164-168 | a run in which an old row is kept and they do not agree |
| CircuitBreaker.Breaker.TryRead | apps/daemon/src/circuit_breaker.rs:141-159 | the read-lock part of the check |
| CircuitBreaker.Breaker.Upgrade | apps/daemon/src/circuit_breaker.rs:161-176 | the write-lock part, which checks everything again |
| CircuitBreaker.Breaker.RecordSuccess | apps/daemon/src/circuit_breaker.rs:183-204 | the effect of a success in each state |
| CircuitBreaker.Breaker.RecordFailure | apps/daemon/src/circuit_breaker.rs:211-236 | the effect of a failure in each state |
| CircuitBreaker.Breaker.ForceClose | apps/daemon/src/circuit_breaker.rs:256-265 | the effect of a forced close |
| CircuitBreaker.ExecInv | apps/daemon/src/circuit_breaker.rs:183-236 | in every run an open circuit has a failure time, and both counters stay at or below their thresholds and within 32 bits |
| CircuitBreaker.PhasesRefineCheck | apps/daemon/src/circuit_breaker.rs:140-176 | the deciding lock acquisition does what the documented one-step check does |
| CircuitBreaker.TwoLocksRefineOne | apps/daemon/src/circuit_breaker.rs:140-176 | under every interleaving, state and answers equal those of a one-step breaker run on the linearisation of the events |
| CircuitBreaker.ChecksAreAnswered | apps/daemon/src/circuit_breaker.rs:140-176 | every check can be made, and is answered as the one-step check unless the read falls through, after which the upgrade answers |
| CircuitBreaker.OpensAtThreshold | apps/daemon/src/circuit_breaker.rs:211-225 | a closed circuit opens exactly at the failure that makes the failures since the last success or close reach the threshold |
| CircuitBreaker.ClosesAtThreshold | apps/daemon/src/circuit_breaker.rs:183-265 | a half-open circuit closes by force or exactly at the success that reaches the threshold with no failure since it became half-open, opens at any failure, and otherwise stays |
| CircuitBreaker.LeavesOpen | apps/daemon/src/circuit_breaker.rs:150-176 | an open circuit closes by force and becomes half-open exactly at a check no earlier than the timeout after the newest failure, which is the first to be admitted |
| CircuitBreaker.ClosedAdmits | apps/daemon/src/circuit_breaker.rs:144-146 | a closed circuit admits every check and is not changed by it |
| CircuitBreaker.ClosingStartsAfresh | apps/daemon/src/circuit_breaker.rs:186-265 | once closed, by success or by force, the circuit behaves like a new one |
| CircuitBreaker.RejectsWithinWindow | apps/daemon/src/circuit_breaker.rs:150-159 | until the timeout has passed an open circuit stays open and rejects every check, whatever else is recorded |
| CircuitBreaker.HalfOpenAdmitsEveryone | apps/daemon/src/circuit_breaker.rs:147-149 | a half-open circuit admits any number of calls |
| CircuitBreaker.OneProbeIff | apps/daemon/src/circuit_breaker.rs:140-176 | a half-open period admits one call for the check that began it and one for each later check, so only one if and only if there is no later check |
| CircuitBreaker.TwoProbesExample | apps/daemon/src/circuit_breaker.rs:147-149 | a run in which two calls pass in one half-open period |
| BpfFilter.Build | intelligence/internal/sandbox/seccomp_linux.go:98-146 | the emitted program is the layout of some enumeration of exactly the allowed numbers |
| BpfFilter.Emit | intelligence/internal/sandbox/seccomp_linux.go:117-145 | for any allowed set, the loop over the map lays out one test per number, in some order, between the load and the two returns |
| BpfFilter.Decides | intelligence/internal/sandbox/seccomp_linux.go:117-143 | with at most 255 entries, interpreting the program allows a number exactly when it is listed and otherwise returns EPERM |
| BpfFilter.JumpsInRange | intelligence/internal/sandbox/seccomp_linux.go:126-138 | every jump lands inside the program, and with at most 255 entries on the final RET-ALLOW |
| BpfFilter.FirstIsRefused | intelligence/internal/sandbox/seccomp_linux.go:128-130 | with more entries the first listed number is refused |
| BpfFilter.CorrectIff | intelligence/internal/sandbox/seccomp_linux.go:98-146 | the program means the allowed set if and only if that set has at most 255 numbers |
| BpfFilter.ShippedFilter | intelligence/internal/sandbox/seccomp_linux.go:69-115 | the filter of the shipped list allows exactly twenty given numbers and ioctl, in every enumeration order, and refuses all others with EPERM |
| GraphExpander.Expand | intelligence/internal/retrieval/graph_expander.go:66-105 | the result lists, each once and by nondecreasing distance, exactly the nodes whose shortest distance from the seeds is between 1 and the bound, for every graph; it fails only if a query failed |
| GraphExpander.Visit | intelligence/internal/retrieval/graph_expander.go:93-100 | the inner loop keeps the unvisited answers, without repetition |
| GraphExpander.NextLevel | intelligence/internal/retrieval/graph_expander.go:87-102 | the nodes one step further are the neighbours of a level that were not met before |
| GraphExpander.NothingBeyond | intelligence/internal/retrieval/graph_expander.go:87 | stopping at an empty frontier loses nothing |
| GraphExpander.NoSeedListed | intelligence/internal/retrieval/graph_expander.go:77-80 | no seed is ever returned |
| RrfMerge.Merge | intelligence/internal/retrieval/rrf.go:55-92 | the output is sorted and lists each id of the inputs once, with the sum of its reciprocal ranks and the metadata of its first entry |
| RrfMerge.ApplyList | intelligence/internal/retrieval/rrf.go:64-76 | one list is added to the accumulated scores |
| RrfMerge.ScoreAt | intelligence/internal/retrieval/rrf.go:64-76 | in a list without duplicates an id scores 1 / (k + rank), ranks from 1 |
| RrfMerge.FirstIs | intelligence/internal/retrieval/rrf.go:66-75 | the metadata kept are those of the first entry with the id |
| RrfMerge.SortByScore | intelligence/internal/retrieval/rrf.go:87-89 | a sorted rearrangement |
| RrfMerge.AgreementSurvives | intelligence/internal/retrieval/rrf.go:44-54 | for duplicate-free lists, an id that stands before another in every list that has the other stands before it in the result |
| GatewayStream.StreamComplete | intelligence/internal/gateway/stream.go:74-126 | for every consumer speed, exactly what is sent; it is a prefix of the unbounded output followed by at most one overflow error, and a stream no longer than the buffer is never cut |
| GatewayStream.StreamCarries | intelligence/internal/gateway/stream.go:87-122 | in terms of the provider items alone: one chunk per item up to the last, with its text, all text so far, "stop" exactly when it is marked done, and an error exactly for an error |
| GatewayStream.TextIsCarried | intelligence/internal/gateway/stream.go:104-111 | the deltas of the stream are all text of the items taken |
| GatewayStream.EmitDelivers | intelligence/internal/gateway/stream.go:425-448 | one send goes on, or ends the stream at the first chunk that finds the buffer full |
| GatewayStream.TryEmitDelivers | intelligence/internal/gateway/stream.go:416-421 | an error chunk is sent, or lost at a full buffer without a replacement |
| GatewayStream.CarriedDelivered | intelligence/internal/gateway/stream.go:416-448 | what is sent is a prefix of the unbounded output and at most one overflow error; up to the capacity it is all of it |
| GatewayStream.OverflowReportedIff | intelligence/internal/gateway/stream.go:11-12 | a cut stream ends with the overflow error if and only if the cut chunk was not one that is only tried and the consumer made room before the second operation |
| GatewayStream.StreamReportsIff | intelligence/internal/gateway/stream.go:74-126 | the same for every provider output of StreamComplete |
| GatewayStream.SilentCutExample | intelligence/internal/gateway/stream.go:441-446 | a consumer that takes nothing gets the first 4096 chunks of a longer stream and no error |
| GatewayStream.StreamCoherent | intelligence/internal/gateway/stream.go:87-122 | every chunk's content so far is all text up to it |
| GatewayStream.ConsumerView | intelligence/internal/gateway/stream.go:50-67 | the text received so far is always a prefix of the last chunk's content so far, and equal to it on every chunk but the overflow error |
| AnthropicStream.Stream | intelligence/internal/gateway/stream.go:134-256 | the event loop sends exactly what the buffer rule makes of the unbounded output of the decoded events |
| AnthropicStream.HandleLine | intelligence/internal/gateway/stream.go:153-249 | one turn of the event loop: the chunk it emits, whether it ends, and both accumulators |
| AnthropicStream.DecodeIff | intelligence/internal/gateway/stream.go:153-249 | which lines are texts, parts, starts, stops, messages and the end |
| AnthropicStream.EventsAre | intelligence/internal/gateway/stream.go:146-169 | one event per line, decoded under the name of the last event line before it, unless the context is found done |
| AnthropicStream.StreamCarries | intelligence/internal/gateway/stream.go:134-256 | in terms of the events alone: in order, one chunk for every text, every stop of an open block, every message and every failure up to the end, and nothing else |
| AnthropicStream.ToolCallComesOut | intelligence/internal/gateway/stream.go:216-222 | the stop of an open block puts its tool call out, with the block's own id, name and parts |
| AnthropicStream.ToolsAre | intelligence/internal/gateway/stream.go:187-223 | a block has an accumulator exactly while it is open |
| AnthropicStream.ToolHistory | intelligence/internal/gateway/stream.go:187-207 | the accumulator of an open block holds exactly its own parts since its latest start |
| AnthropicStream.ToolCallsNeverMix | intelligence/internal/gateway/stream.go:180-223 | the input of every tool call put out is the concatenation of exactly its own block's parts since that block's latest start, and every chunk carries all text so far |
| AnthropicStream.SseCoherent | intelligence/internal/gateway/stream.go:180-244 | every chunk's content so far is all text up to it |
| Ndcg.Compute | evaluation/metrics.ts:44-72 | the two loops compute the normalised gain, for every cutoff |
| Ndcg.HitsAtTopAreBest | evaluation/metrics.ts:54-68 | a ranking gains at most what its hits would gain at the top |
| Ndcg.OnlyTopIsBest | evaluation/metrics.ts:54-68 | it gains exactly that if and only if its hits are at the top |
| Ndcg.Bounded | evaluation/metrics.ts:44-72 | with no more hits than the ideal ranking the score lies in [0, 1], and is 1 exactly when the first min(truth, k) results are all relevant |
| Ndcg.BoundedForDistinct | evaluation/metrics.ts:32-43 | for duplicate-free rankings the score lies in [0, 1] for every ground truth and cutoff, and is 0 for an empty truth or a cutoff below 1 |
| Ndcg.BoundIff | evaluation/metrics.ts:44-72 | the bound holds whatever the discount if and only if the cut ranking has no more hits than the ideal one, the truth is empty or the cutoff is below 1 |
| Ndcg.BoundForOneDiscount | evaluation/metrics.ts:44-72 | for each single discount the score is at most 1 if and only if the hits beyond the ideal places gain no more than the empty ideal places waste |
| Ndcg.DuplicateExample | evaluation/metrics.ts:54-61 | a repeated relevant id scores above 1 |
| MarkdownChunker.ChunkDocument | intelligence/internal/docs/markdown_chunker.go:54-127 | the line loop yields exactly the chunks of the regions that start at line 1 and at every heading outside fences |
| MarkdownChunker.AtxHeading | intelligence/internal/docs/markdown_chunker.go:131-148 | heading level and text of a trimmed line |
| MarkdownChunker.HeadingIff | intelligence/internal/docs/markdown_chunker.go:131-148 | a line is a heading exactly when it starts with one to six hashes and a space |
| MarkdownChunker.HeadingIs | intelligence/internal/docs/markdown_chunker.go:131-148 | the level is the number of hashes, and the text is the line without its outer hashes and spaces and then its outer white space |
| MarkdownChunker.FenceIff | intelligence/internal/docs/markdown_chunker.go:95-101 | a fence line starts with three backticks or tildes behind leading white space |
| MarkdownChunker.FenceParity | intelligence/internal/docs/markdown_chunker.go:95-101 | a line is inside a fence exactly when an odd number of fence lines came before |
| MarkdownChunker.Flush | intelligence/internal/docs/markdown_chunker.go:72-89 | the chunk of the buffer unless it is blank |
| MarkdownChunker.SplitJoin | intelligence/internal/docs/markdown_chunker.go:60 | splitting into lines loses nothing |
| MarkdownChunker.Tiling | intelligence/internal/docs/markdown_chunker.go:91-124 | the regions are contiguous, ordered and disjoint and together are the document; each starts at line 1 or at a heading outside fences and contains no other |
| MarkdownChunker.DocumentedIff | intelligence/internal/docs/markdown_chunker.go:50-53 | the code opens the regions its comment describes if and only if no heading outside fences is deeper than the heading just before it |
| MarkdownChunker.DocumentedEndsIff | intelligence/internal/docs/markdown_chunker.go:50-53 | with the comment read as overlapping regions, every region ends where it says under the same condition |
| MarkdownChunker.DeeperHeadingExample | intelligence/internal/docs/markdown_chunker.go:103-115 | a section with a subsection gives two regions, while the comment describes one |
| MarkdownChunker.SomeHeadings | intelligence/internal/docs/markdown_chunker.go:131-148 | "# a" and "## b" are two such headings |
| MarkdownChunker.OnlyBlankPreambleDropped | intelligence/internal/docs/markdown_chunker.go:72-77 | a region yields no chunk exactly when it is blank, and a heading region never is |
| MarkdownChunker.ChunkContent | intelligence/internal/docs/markdown_chunker.go:78-88 | a chunk carries its region's first line number, opening heading, and text without trailing newlines, cut to exactly the cap when longer |
| MarkdownChunker.ChunkOrigins | intelligence/internal/docs/markdown_chunker.go:91-126 | every chunk comes from a region of its own, in order of appearance |
| PromptBudget.SortStable | intelligence/internal/compiler/prompt_budget.go:82-83 | items ordered by falling score, ties by position |
| PromptBudget.RankedUnique | intelligence/internal/compiler/prompt_budget.go:82-83 | that order is unique |
| PromptBudget.TiesKeepOrder | intelligence/internal/compiler/prompt_budget.go:82-83 | two items that both fit come out by falling score, and in their original order on a tie |
| PromptBudget.Trim | intelligence/internal/compiler/prompt_budget.go:77-135 | the kept items are the greedy selection from the stable score order: each is kept exactly when it fits beside the kept items ranked before it |
| PromptBudget.GreedyIsBest | intelligence/internal/compiler/prompt_budget.go:86-93 | against any other selection that fits, the greedy one keeps the better-ranked item where they first differ |
| PromptBudget.TrimmedFits | intelligence/internal/compiler/prompt_budget.go:86-93 | what a section charges fits its budget |
| PromptBudget.DropsLowestIff | intelligence/internal/compiler/prompt_budget.go:55-60 | only lowest-ranked items are dropped if and only if no item after the first misfit fits in the room left before it |
| PromptBudget.LowerSurvives | intelligence/internal/compiler/prompt_budget.go:81-96 | of two chunks of which only the lower-scored fits, trimming keeps exactly that one |
| PromptBudget.LowerSurvivesExample | intelligence/internal/compiler/prompt_budget.go:88-90 | two scored chunks of which trimming keeps exactly the lower-scored one |
| PromptBudget.Allocate | intelligence/internal/compiler/prompt_budget.go:62-75 | each section is the greedy selection under its share, and the three together never charge more than the total |
| PromptBudget.SharesAre | intelligence/internal/compiler/prompt_budget.go:62-75 | the shares are 60, 25 and 15 percent, rounded down |
| PromptBudget.ItemCharges | intelligence/internal/compiler/prompt_budget.go:86-133 | each section charges an item its texts and an overhead of 8, 4 or 6 tokens: alone, it is kept exactly when that fits |
| CompileCache.Compiler.CompileContext | intelligence/internal/compiler/compiler.go:103-175 | every path of a compilation and its effect on the cache |
| CompileCache.HitsRepeatThePipeline | intelligence/internal/compiler/compiler.go:117-175 | under concurrent compilations, with clock and cache accesses interleaved in any way, every hit repeats a block the pipeline produced for the same workspace and query at most 30 seconds earlier, the last one stored when the cache was read |
| CompileCache.HitIff | intelligence/internal/compiler/compiler.go:117-164 | an undisturbed compilation hits if and only if the last block stored for its workspace was produced for its query at most 30 seconds earlier, and serves that block |
| CompileCache.MissStores | intelligence/internal/compiler/compiler.go:127-175 | a miss whose pipeline produces a block stores it for its workspace and nowhere else, for 30 seconds; one that fails leaves no trace |
| CompileCache.RepeatedQueryHits | intelligence/internal/compiler/compiler.go:117-175 | a repeated query within 30 seconds is a hit |
| CompileCache.FailuresAreNeverServed | intelligence/internal/compiler/compiler.go:127-144 | the compilation whose block a hit serves never fails |
| Quota.Enforcer.CheckAndIncrement | intelligence/internal/auth/quota.go:47-90 | the upsert and the comparison with the limit |
| Quota.CounterCounts | intelligence/internal/auth/quota.go:65-81 | the counter is the number of requests that belong to the present day, and none belongs to a later one |
| Quota.WindowIsLatestDay | intelligence/internal/auth/quota.go:69-78 | the stored window is the latest day any counted request of the workspace came with |
| Quota.LatestDayIs | intelligence/internal/auth/quota.go:74-78 | that day is one of theirs and none is later |
| Quota.NewDayResets | intelligence/internal/auth/quota.go:69-78 | the first request of a later day than all before has number 1 and is admitted |
| Quota.TierIsLatest | intelligence/internal/auth/quota.go:79 | the stored tier is that of the last counted request |
| Quota.TierLimits | intelligence/internal/auth/jwt_validator.go:50-59 | 100 requests a day for the free and every unknown tier, 10,000 for the professional one, no limit and no counting for the enterprise one |
| Quota.WindowNeverMovesBack | intelligence/internal/auth/quota.go:74-78 | the window start never moves back, whatever the callers' clocks say |
| Quota.NumberedInOrder | intelligence/internal/auth/quota.go:69-80 | the requests of a day are numbered 1, 2, 3, ... |
| Quota.QuotaHolds | intelligence/internal/auth/quota.go:86-90 | on one day of one workspace, all tiers with at most a given limit together have at most that many requests admitted |
| Quota.AdmittedIff | intelligence/internal/auth/quota.go:86-90 | a request is admitted if and only if fewer than its limit belong to its day before it |

## Left out

- JSON, HTTP, gRPC, Postgres, Redis and Temporal clients, provider adapters and generated code: foreign calls without a local algorithm.
- User interfaces, command-line definitions, logging, mDNS, Tailscale, token validation: plumbing.
- Installing the seccomp filter, and every part of the sandbox other than the layout of the program.
- The OpenAI-compatible event reader of the gateway: the same accumulator and buffer rule as the modelled one, without per-block state.
- Call edges of the symbol index: their conflict rule is not tied to a file, so agreement with a rescan is not promised.
- Files that exist but cannot be read, and directories created after the watcher started: the model's watcher may report any visible file at any time.
- Store failures of the symbol index and database failures of the quota.
- Non-ASCII white space, in the header values of LspFraming and in MarkdownChunker: trimming knows the six ASCII space characters.
- A frame that announces more bytes than memory holds: the reader specification reports a body error.
- Wrap-around of the 64-bit request id: ids are unbounded integers.
- Two Stop calls whose tests and closes of the stop channel overlap: test and close are one step, the rest of concurrent Stop calls is modelled.
- The time stamps of the pool's slots: being idle is an open choice of the reaper.
- Error codes a provider's own errors already carry: the model has one code for them.
- PromptBudget.Allocate: shares are computed over real numbers, so rounding of the floating-point products is not modelled.
- RrfMerge.Merge: scores are real numbers, so rounding is not modelled.
- Ndcg.Compute: the discount is any positive, strictly decreasing sequence, and cutoffs are integers.
- Mean reciprocal rank, precision and aggregation in evaluation/metrics.ts: settled by reading them.
- The text layout of the compiled context block: a formatting function without a law.
