# Hubble: a Dafny model of its sync, ingestion and subscription core

This project models parts of Hubble, a Farcaster hub, and proves properties of them. `dafny verify dfyconfig.toml`
checks all of it.

| file | what it models |
|---|---|
| `Bytes.dfy`, `ByteArithmetic.dfy`, `Decimal.dfy` | byte strings, their order, increment and decrement; decimal strings |
| `Wrappers.dfy`, `Sequences.dfy`, `Arithmetic.dfy` | results and options; orders of places and elements; division facts |
| `FarcasterTime.dfy` | Farcaster time and event ids |
| `SyncTrie.dfy`, `SyncHealth.dfy`, `SyncHealthProbe.dfy` | range queries over the sync trie, the diff of two hubs and the pushes across |
| `L2Ingestion.dfy`, `L2Restart.dfy`, `L2Overlap.dfy`, `L2Flush.dfy`, `L2Refinement.dfy`, `L2History.dfy` | on-chain event ingestion: a state machine of its steps, what a restart may rely on without and with retries, one flush and the batches as code, that the code is a path of the machine, and what a flush of history sync needs of the cache |
| `JumpHash.dfy`, `Subscription.dfy`, `ConnectionLimiter.dfy`, `BufferedWriter.dfy` | sharded event subscriptions |
| `PagedIteration.dfy` | paged iteration over the database |
| `LruCache.dfy`, `TtlMap.dfy` | caches |

## How it is modelled

- **Sync trie.** A hub's trie is a finite set of keys, none a prefix of another, each with ten timestamp digits in
  front. Node metadata, listings (cut off after 1024 keys), message lookups (message ids only, at most 1024 per remote
  call) and submissions are answered from that set. The remote retriever answers a missing node with an empty record
  whose prefix is empty, so the walk then starts at the root; the in-process one answers it with an error. A hub that
  is not `reliable` may fail any call. The callback of the walk is modelled by the list of nodes presented to it.
- **Ingestion.** A step is the code between two awaits, and any step may come between two others. History sync awaits
  its flushes, the block watcher starts after it, and the handler of a new block waits while the flag of another is
  set; that flushes then do not overlap is proved. `Disciplined` states what the restart result assumes beyond that:
  no retries, fetches that are complete and cached before their flush, and watchers that stay silent at or below the
  confirmed height while history is synced. Conservation assumes none of it. `Careful` admits retries
  at any time whose confirmed events are known.
- **Numbers** are unbounded except where the source's doubles matter: event ids are rounded to doubles, and the division
  of the shard hash is shown to survive rounding.
- **Clocks, randomness, network answers** are parameters: the readings of the clock, what the stream answers to a
  write, whether a loader throws, the snapshots of the store between pages.

## Where the code and its documentation or intent differ

- A sync-health query with its times reversed still selects the keys of the start second
  (`SyncHealth.SpanIsHalfOpen`, `SyncHealth.ReversedSpanSelects`).
- A reverse scan with a `gt` bound visits the bound itself when other keys are in range, and paging loses it when a
  page ends just before it (`PagedIteration.PagedIsUnpaged`, `PagedIteration.PagingLosesBound`).
- The persisted block goes back exactly when the name provider writes a record that it read before a flush persisted
  its block, and the persisted transfer likewise when a flush writes an older record, or when transfers are fetched
  from the beginning again (`L2Restart.BlockRegresses`, `L2Restart.BlockRegressesAfterFlush`,
  `L2Restart.TransferRegresses`, `L2Restart.TransferRegressesAfterNames`). What is persisted stays sound
  (`L2Restart.PersistedIsSound`).
- Retries let flushes overlap, and then a block can be persisted above an event that is still in flight
  (`L2Restart.OverlapBreaksSoundness`); provided that confirmed events are known before their flush, a crash loses
  track of exactly those events (`L2Overlap.OverlapIsExposed`).
- A confirmed block that a watcher or a retry caches ahead of history sync lets a flush persist above events never
  fetched, without any overlap (`L2Restart.LoudWatcherBreaksSoundness`); a flush is safe from that if and only if the
  confirmed cached blocks are ones that history has reached (`L2History.SoundIffCacheWithin`).
- `cachedBlocks.sort()` orders block numbers as strings: the order is numeric if and only if no larger block begins with
  smaller digits (`L2Flush.SortedIsIncreasing`, `L2Flush.UnequalDigitsReorder`).
- A type listed twice in a subscription is delivered twice live and once by the backfill (`Subscription.LiveIsBackfill`,
  `Subscription.DoubledTypeDoubles`).
- Closing a stream leaves listeners behind in two cases: a type listed twice, and a close during the backfill, after
  which the handler still registers its listeners (`Subscription.SubscribeAndClose`, `Subscription.DoubledTypeLeaks`,
  `Subscription.EarlyCloseLeaks`).
- Closing an authorized stream that was over the limit frees a slot it never took
  (`ConnectionLimiter.UndercountAdmitsExtra`); the count is exact if and only if no open stream is uncounted
  (`ConnectionLimiter.Subscriptions.CountIsExact`).
- `TTLMap.size` counts more than the live entries between cleanups (`TtlMap.TTLMap.Size`, `TtlMap.SizeOvercounts`), and
  `delete` answers true for an expired entry that is still stored, contrary to its comment.
- The comment on `BufferedStreamWriter` speaks of 1000 messages; the constant, and the model, have 10,000.
- `extractEventTimestamp` does not recover a timestamp equal to the epoch, nor, from 41 bits of offset on, sequence
  numbers that rounding carries into the next millisecond (`FarcasterTime.ExtractRecovers`,
  `FarcasterTime.LateIdsCollide`).
- The range from a prefix of nothing but 255s to its increment misses keys with that prefix
  (`ByteArithmetic.RangeIsPrefix`).

## Model

| member | source | states |
|---|---|---|
| SyncHealth.TimePrefixValue | apps/hubble/src/network/sync/syncId.ts:219-222 | the padded prefix of a time is ten digits that denote that time |
| Decimal.OrderIsNumeric | apps/hubble/src/network/sync/syncId.ts:55-65 | digit strings of one width are ordered as bytes exactly as they are as numbers, and equal exactly when their values are |
| SyncHealth.GetCommonPrefix | apps/hubble/src/utils/syncHealth.ts:234-246 | the loop finds the longest common prefix |
| SyncTrie.GetMetadata | apps/hubble/src/addon/src/trie/merkle_trie.rs:315-351 | an answer about a node counts its subtree and splits it into its children in some order, a single key below the timestamp having none; the root answers even in an empty trie; what a missing node yields for each retriever |
| SyncTrie.GetAllSyncIdsByPrefix | apps/hubble/src/addon/src/trie/trie_node.rs:571-597 | a listing holds keys of the subtree, each once, and all of them unless it holds more than 1024 |
| SyncTrie.GetAllMessagesBySyncIds | apps/hubble/src/network/sync/syncEngine.ts:1461-1470 | only ids that the hub holds and whose byte after the timestamp is 1 are answered; a remote request over 1024 ids fails |
| SyncHealth.ChildTarget | apps/hubble/src/utils/syncHealth.ts:265-277 | each branch of the loop over a node's children selects exactly the wanted keys under that child |
| SyncHealth.TraverseRange | apps/hubble/src/utils/syncHealth.ts:252-280 | the nodes presented are disjoint subtrees right below the paths that together hold exactly the wanted keys under the start node; when nested lookups fail, on the paths, they hold at least the wanted keys under no failed prefix |
| SyncHealth.TargetIsSpan | apps/hubble/src/utils/syncHealth.ts:282-307 | from the common prefix or any ancestor of it, what the walk wants is exactly the keys whose timestamp is in the span |
| SyncHealth.WalkSpan | apps/hubble/src/utils/syncHealth.ts:282-307 | the lookup of the common prefix and the walk cover the span; with a reliable hub the call fails exactly when a time is out of range or, in process, when the common prefix is not empty and no key shares it |
| SyncHealth.SpanIsHalfOpen | apps/hubble/src/utils/syncHealth.ts:267-276 | the selected keys are those of the half-open span if and only if the bounds are in order or the start second holds no key |
| SyncHealth.ReversedSpanSelects | apps/hubble/src/utils/syncHealth.ts:267-269 | a reversed query that selects a key although its half-open span is empty |
| SyncHealth.GetNumMessagesInSpan | apps/hubble/src/utils/syncHealth.ts:311-334 | the count is the number of keys in the span; when lookups fail it is between the keys under no failed prefix and all of them |
| SyncHealth.ManyKeysAreBelow | apps/hubble/src/network/sync/syncId.ts:98-100 | two keys under a prefix are longer than it, so descending terminates and loses none |
| SyncHealth.ComputeSyncIdsUnderPrefix | apps/hubble/src/utils/syncHealth.ts:357-396 | lists each key of a subtree once, by listing calls on subtrees of at most `cap` keys that begin below a prefix only where it holds more; complete when every subtree listed is within the server's limit, as it is when the cap is |
| SyncHealth.ListNodes | apps/hubble/src/utils/syncHealth.ts:425-433 | a node whose listing fails is left out and the others are listed, exactly |
| SyncHealth.ComputeSyncIdsInSpan | apps/hubble/src/utils/syncHealth.ts:398-434 | lists keys of the span, each once, and exactly all of them when no call fails and every subtree listed is within the server's limit; the answer is Ok whenever the walk was, with every key under no failed prefix |
| SyncHealthProbe.UniqueSyncIds | apps/hubble/src/utils/syncHealth.ts:436-457 | keeps the ids that the other list lacks, as often as they occur and in order |
| SyncHealthProbe.FetchMissing | apps/hubble/src/utils/syncHealth.ts:500-511 | the requests, one after the other, are the missing ids; each but the last has exactly `cap` of them; what comes back is the messages among them |
| SyncHealthProbe.TryPushingMissingMessages | apps/hubble/src/utils/syncHealth.ts:491-523 | one result for each message submitted, and the receiver gains just the messages whose result is a success; they are missing messages that the sender holds, all of them when no call fails |
| SyncHealthProbe.Probe.DivergingSyncIds | apps/hubble/src/utils/syncHealth.ts:525-551 | the two set differences of the spans, by listing calls within the cap |
| SyncHealthProbe.PushGains | apps/hubble/src/utils/syncHealth.ts:553-577 | pushing the difference leaves the receiver with its own ids and the sender's messages of the span |
| SyncHealthProbe.Probe.TryPushingDivergingSyncIds | apps/hubble/src/utils/syncHealth.ts:553-577 | one direction: what the receiver gains, that the sender is unchanged, that a failure changes nothing, each id requested once, and one truthful result for each message id of the difference |
| SyncHealthProbe.BothWays | apps/hubble/src/utils/syncHealth.ts:698-700 | one full push each way makes the message ids of the span equal on both sides: the union |
| SyncHealthProbe.Probe.PushBothWays | apps/hubble/src/utils/syncHealth.ts:698-700 | after both pushes both hubs hold the union of their message ids in the span, each id that one lacked was requested exactly once, in requests of the cap, and the results are one success for each message id gained; when it fails; with unreliable hubs each side gains at most the other's message ids of the span, just those with a success |
| SyncHealthProbe.GainedBothWays | apps/hubble/src/utils/syncHealth.ts:698-700 | however much of the first push arrived, the second brings back only the peer's own message ids |
| L2Ingestion.RunsConserve | apps/hubble/src/eth/l2EventsProvider.ts:1032-1053 | under any interleaving with any number of concurrent flushes an event is received as often as it is submitted, in flight, cached or lost in a crash |
| L2Ingestion.NoneLostOrRepeated | apps/hubble/src/eth/l2EventsProvider.ts:1032-1053 | without a crash, an event is received exactly as often as it is submitted, in flight or cached: none is lost or submitted twice |
| L2Ingestion.CrashLoses | apps/hubble/src/eth/l2EventsProvider.ts:1040-1049 | a crash loses exactly what is in flight or cached |
| L2Ingestion.StepConserves | apps/hubble/src/eth/l2EventsProvider.ts:1134-1140 | every step keeps that balance |
| L2Restart.StepKeeps | apps/hubble/src/eth/l2EventsProvider.ts:1032-1087 | every step that keeps to the assumptions preserves the invariant of records, flush and phase |
| L2Restart.PersistedIsSound | apps/hubble/src/eth/fnameRegistryEventsProvider.ts:117-144 | at every point of a run every event at or below the persisted block is submitted and every transfer at or below the persisted id is merged, whatever stale record was written |
| L2Restart.RestartMissesNone | apps/hubble/src/eth/l2EventsProvider.ts:605-664 | once a history sync from behind the persisted block has finished, every confirmed event up to its target is submitted |
| L2Restart.HistoryStarts | apps/hubble/src/eth/l2EventsProvider.ts:620-643 | history is fetched from two blocks behind the persisted one, or from the first block on a resync or when none is persisted, unless that is not below the target |
| L2Restart.FlushesDoNotOverlap | apps/hubble/src/eth/l2EventsProvider.ts:1070-1087 | without retries a flush begins only when no other is under way |
| L2Restart.BlockRegresses | apps/hubble/src/eth/fnameRegistryEventsProvider.ts:137-140 | at every step of a run the persisted block is lowered if and only if the name provider writes a record with an earlier one |
| L2Restart.BlockRegressesAfterFlush | apps/hubble/src/eth/fnameRegistryEventsProvider.ts:137-140 | that write lowers it if and only if a flush persisted a block between its read and its write |
| L2Restart.TransferRegresses | apps/hubble/src/eth/l2EventsProvider.ts:1055-1062 | at every step the persisted transfer is lowered if and only if a flush or the name provider writes a record with an earlier one, the latter only after transfers were fetched from the beginning again |
| L2Restart.TransferRegressesAfterNames | apps/hubble/src/eth/l2EventsProvider.ts:1055-1062 | in every run, a flush's write lowers it if and only if the name provider's last write between its read and its write was of a later transfer |
| L2Restart.PersistedMayRegress | apps/hubble/src/eth/fnameRegistryEventsProvider.ts:137-140 | a run in which a stale write lowers the persisted block |
| L2Restart.TransferMayRegress | apps/hubble/src/eth/l2EventsProvider.ts:1055-1062 | a run in which a flush's stale write lowers the persisted transfer |
| L2Restart.RefetchMayRegress | apps/hubble/src/eth/fnameRegistryEventsProvider.ts:80-91 | a run in which the name provider lowers it after starting from the beginning |
| L2Restart.OverlapBreaksSoundness | apps/hubble/src/eth/l2EventsProvider.ts:671-683 | a run with a retry's flush during another that persists a block above an event still in flight |
| L2Overlap.OverlapIsExposed | apps/hubble/src/eth/l2EventsProvider.ts:1032-1062 | at every point of a run with retries, every event at or below the persisted block is submitted or in flight; a crash leaves the persisted block unsound if and only if one of them is in flight and not submitted |
| L2Overlap.StepKeepsLanding | apps/hubble/src/eth/l2EventsProvider.ts:1032-1087 | every step, of history sync, new blocks and retries alike, preserves that |
| L2Overlap.SoundWhenIdle | apps/hubble/src/eth/l2EventsProvider.ts:1032-1062 | once the overlapping flushes have ended the persisted block is sound, and after history sync everything confirmed at its target is submitted |
| L2Restart.LoudWatcherBreaksSoundness | apps/hubble/src/eth/l2EventsProvider.ts:234-261 | a run in which a block cached ahead of history sync is persisted above an event never received |
| L2History.SoundExactly | apps/hubble/src/eth/l2EventsProvider.ts:912-966 | a flush of history sync leaves the persisted block sound whatever the chain holds if and only if the last block it writes is one that history has reached |
| L2History.SoundIffCacheWithin | apps/hubble/src/eth/l2EventsProvider.ts:912-966 | blocks walked in order, that is the case if and only if every confirmed block in the cache is one that history has reached |
| L2Flush.SortedIsIncreasing | apps/hubble/src/eth/l2EventsProvider.ts:1034-1036 | the string sort leaves the blocks increasing if and only if no larger one begins with smaller digits |
| L2Flush.SameDigitsKeepOrder | apps/hubble/src/eth/l2EventsProvider.ts:1034-1036 | equally many digits are enough for that |
| L2Flush.LastWrittenExact | apps/hubble/src/eth/l2EventsProvider.ts:1038-1043 | the last block written is the highest confirmed one if and only if that one begins with no smaller digits than another confirmed one |
| L2Flush.EmittedInOrder | apps/hubble/src/eth/l2EventsProvider.ts:1039-1049 | blocks walked in increasing order submit their events by block, and within a block by log index |
| L2Flush.LastWrittenIsHighest | apps/hubble/src/eth/l2EventsProvider.ts:1038-1043 | the last block written is then the highest confirmed one |
| L2Flush.UnequalDigitsReorder | apps/hubble/src/eth/l2EventsProvider.ts:1036 | blocks 9 and 10 are walked in the wrong order and 9 is persisted |
| L2Flush.Provider.CacheOnChainEvent | apps/hubble/src/eth/l2EventsProvider.ts:1134-1140 | appends the event to its block and leaves the other blocks |
| L2Flush.Provider.WriteCachedBlocks | apps/hubble/src/eth/l2EventsProvider.ts:1032-1068 | a flush submits the confirmed blocks' events, sorted within blocks, and walks the blocks in order if and only if their digits keep it, then also submitting in block order; removes those blocks from cache and retry set; raises the persisted block to the last written if that is higher |
| L2Refinement.FlushIsPath | apps/hubble/src/eth/l2EventsProvider.ts:1032-1068 | from any state, whoever begins the flush, a path of the state machine ends with exactly what the flush method leaves |
| L2Flush.BatchRanges | apps/hubble/src/eth/l2EventsProvider.ts:912-932 | the per-run ranges are non-empty, consecutive, run from the first to the last block and lie between them; each but the last ends a multiple of the batch size after the first block |
| L2Flush.RangesPartition | apps/hubble/src/eth/l2EventsProvider.ts:895-910 | consecutive ranges hold each block in exactly one of them |
| JumpHash.StepAdvances | apps/hubble/src/utils/jumpConsistentHash.ts:23-24 | a step advances except at two to the 64, where it stalls, and the step after that one leaves every shard count behind |
| JumpHash.JumpConsistentHash | apps/hubble/src/utils/jumpConsistentHash.ts:17-27 | the loop terminates, through a stalled step too, with a shard in range; the values it goes through satisfy the generator's congruence and the inequalities of the floor, and the shard is the last candidate in range |
| JumpHash.KnownShard | apps/hubble/src/utils/jumpConsistentHash.ts:17-27 | key 4 is on shard 1 of 2 |
| JumpHash.OneMoreShard | apps/hubble/src/utils/jumpConsistentHash.ts:1-5 | one more shard keeps the key's shard or moves it to the new one |
| JumpHash.Consistent | apps/hubble/src/utils/jumpConsistentHash.ts:1-5 | from n to m shards a key moves only into a new shard |
| JumpHash.FloorSurvivesRounding | apps/hubble/src/utils/jumpConsistentHash.ts:24 | a quotient rounded to a double has the floor of the exact quotient, for numerators below two to the 53 |
| Subscription.OwnerByKind | apps/hubble/src/rpc/server.ts:1744-1752 | on-chain and username-proof events are owned by shard 0, the others by the shard of their fid |
| Subscription.Resharding | apps/hubble/src/rpc/server.ts:1744-1752 | ordered events stay on shard 0; another event stays or moves to a new shard |
| Subscription.Subscriber.EventListener | apps/hubble/src/rpc/server.ts:1739-1754 | the listener writes exactly the events that the shard owns |
| Subscription.Subscriber.ShouldWriteEvent | apps/hubble/src/rpc/server.ts:1799-1809 | the backfill writes exactly the requested types that the shard owns |
| Subscription.Subscriber.Register | apps/hubble/src/rpc/server.ts:1849-1869 | the listener is put on each channel once when no type is requested, otherwise as often as its type is |
| Subscription.Subscriber.Emit | apps/hubble/src/storage/stores/storeEventHandler.ts:407-423 | an emitted event is written once for each time the listener is on its channel, if the shard owns it |
| Subscription.Subscriber.Deliver | apps/hubble/src/rpc/server.ts:1739-1754 | of a sequence of emitted events, the owned ones are written in order, each as often as the listener is on its channel |
| Subscription.Subscriber.Live | apps/hubble/src/rpc/server.ts:1739-1754 | of a sequence of emitted events, the owned ones are written in order, each as often as its type was requested |
| Subscription.Subscriber.Backfill | apps/hubble/src/rpc/server.ts:1799-1843 | of the stored events, the owned ones of a requested type are written in order, each once |
| Subscription.Subscribe | apps/hubble/src/rpc/server.ts:1739-1870 | the handler writes the backfill of the stored events and then the live stream of the emitted ones |
| Subscription.StreamsInOrder | apps/hubble/src/rpc/server.ts:1739-1809 | either stream is the input at non-decreasing places, each place as often as its number of copies |
| Subscription.OneShard | apps/hubble/src/rpc/server.ts:1744-1753 | of several shards, the owner's and no other writes an event, live and by the backfill alike |
| Subscription.ShardsReassemble | apps/hubble/src/rpc/server.ts:1744-1753 | the shards together write each event exactly as often as one subscription without shards |
| Subscription.LiveIsBackfill | apps/hubble/src/rpc/server.ts:1849-1869 | of the same events the live stream and the backfill write the same sequence if and only if no owned event's type was requested twice |
| Subscription.DoubledTypeDoubles | apps/hubble/src/rpc/server.ts:1856-1868 | a type requested twice: one event is written twice live and once by the backfill |
| Subscription.Subscriber.Close | apps/hubble/src/rpc/server.ts:1757-1762 | the listener is taken off each channel once |
| Subscription.SubscribeAndClose | apps/hubble/src/rpc/server.ts:1757-1870 | for a close during the backfill or at any point of the live stream: how often the listener is left on each channel, that it is left on none if and only if nothing is registered after the close and nothing twice before it, and what is written |
| Subscription.SilentAfterClose | apps/hubble/src/rpc/server.ts:1757-1762 | after the close nothing more is written if and only if no owned event has a type that is left |
| Subscription.EarlyCloseLeaks | apps/hubble/src/rpc/server.ts:1757-1869 | one type requested once, closed during the backfill: the listener is left |
| Subscription.DoubledTypeLeaks | apps/hubble/src/rpc/server.ts:1757-1869 | one type requested twice, closed while live: the listener is left once |
| ConnectionLimiter.IpConnectionLimiter.AddConnection | apps/hubble/src/rpc/server.ts:318-334 | admits within both limits, the two loopback addresses within the global one only, counts what it admits, and keeps the total equal to the sum of the counts |
| ConnectionLimiter.IpConnectionLimiter.RemoveConnection | apps/hubble/src/rpc/server.ts:336-345 | takes one off a positive count and off the total |
| ConnectionLimiter.IpConnectionLimiter.Clear | apps/hubble/src/rpc/server.ts:347-350 | forgets all connections |
| ConnectionLimiter.SumUpdate | apps/hubble/src/rpc/server.ts:331-332 | changing one count changes the sum by the difference |
| ConnectionLimiter.Subscriptions.Open | apps/hubble/src/rpc/server.ts:1707-1721 | opens what the limiter admits and every authorized stream; counted and uncounted streams make up the open ones, and a stream is uncounted exactly when the limiter refused it |
| ConnectionLimiter.Subscriptions.Close | apps/hubble/src/rpc/server.ts:1757-1764 | takes a stream off the count, or off the uncounted ones exactly when the count is zero, so both are zero once all streams are closed |
| ConnectionLimiter.Subscriptions.CountIsExact | apps/hubble/src/rpc/server.ts:318-345 | an address's count equals its open streams if and only if none is uncounted, and the limit bounds them up to the uncounted ones |
| ConnectionLimiter.Subscriptions.TotalIsExact | apps/hubble/src/rpc/server.ts:318-345 | all open streams are the limiter's total and the uncounted ones |
| ConnectionLimiter.Subscriptions.AdmitsBeyondLimit | apps/hubble/src/rpc/server.ts:318-334 | an unauthorized stream gets in beside a full complement of open ones if and only if enough of those are uncounted |
| ConnectionLimiter.UndercountAdmitsExtra | apps/hubble/src/rpc/server.ts:1711-1764 | a sequence of opens and closes that leaves two unauthorized streams open under a limit of one |
| BufferedWriter.BufferedStreamWriter.WriteToStream | apps/hubble/src/rpc/bufferedStreamWriter.ts:33-63 | sends, buffers or destroys; what is sent and waiting stays an in-order selection of the input, the whole input until a destroy, and the buffer within its limit |
| BufferedWriter.BufferedStreamWriter.OnDrain | apps/hubble/src/rpc/bufferedStreamWriter.ts:55-72 | sends waiting messages in order until none is left or the stream answers that it is backed up, which is then its state, losing none |
| BufferedWriter.BufferedStreamWriter.OnTimeout | apps/hubble/src/rpc/bufferedStreamWriter.ts:52-53 | drops what waits and nothing that was sent |
| PagedIteration.NativeFacts | apps/hubble/src/addon/src/db/rocksdb.rs:431-499 | a native call visits the keys of the range in order, except a skipped `gt` bound, and when that one is skipped |
| PagedIteration.RangeBounds | apps/hubble/src/addon/src/db/rocksdb.rs:431-460 | the lower bounds are in the range, the upper one is not |
| PagedIteration.BoundsVisited | apps/hubble/src/addon/src/db/rocksdb.rs:431-499 | a stored key at the `gte` bound is visited; the `lt` bound never is, nor the `gt` bound of a forward scan |
| PagedIteration.NextPage | apps/hubble/src/rustfunctions.ts:238-256 | the next page continues exactly after the last key, unless only the `gt` bound of a reverse scan is left |
| PagedIteration.ForEachIteratorByOpts | apps/hubble/src/rustfunctions.ts:225-270 | the loop terminates, asks the callback about the visited keys in order up to the first stop, returns true exactly when nothing stopped it, and fails exactly on options with both or neither lower bound |
| PagedIteration.PagedIsUnpaged | apps/hubble/src/rustfunctions.ts:225-270 | on a fixed store paging visits the keys of one unpaged scan in the same order if and only if no page ends just before the `gt` bound of a reverse scan |
| PagedIteration.PagingLosesBound | apps/hubble/src/addon/src/db/rocksdb.rs:473-480 | two keys, one a page: the unpaged scan visits both, the paged one only the first |
| PagedIteration.VisitsOrdered | apps/hubble/src/rustfunctions.ts:238-267 | however the store changes between pages, the visited keys are strictly ordered, so none repeats |
| PagedIteration.VisitsComplete | apps/hubble/src/rustfunctions.ts:238-267 | a key present throughout and in range is visited when nothing stops the scan, a `gt` bound excepted |
| PagedIteration.VisitsSound | apps/hubble/src/rustfunctions.ts:238-267 | every visited key is in range and was in the store for some page |
| LruCache.LRUCache.Get | apps/hubble/src/utils/lruCache.ts:35-56 | the new buffers and the answer; the buffers stay disjoint and within the limit |
| LruCache.LRUCache.Invalidate | apps/hubble/src/utils/lruCache.ts:61-64 | removes the key from both buffers |
| LruCache.LRUCache.Clear | apps/hubble/src/utils/lruCache.ts:67-70 | empties both buffers |
| LruCache.GetKeepsWellFormed | apps/hubble/src/utils/lruCache.ts:36-53 | a get, with its rotation, keeps the buffers disjoint and within the limit |
| LruCache.GetAnswersSource | apps/hubble/src/utils/lruCache.ts:25-34 | after any run of gets, clears and invalidated changes, a get answers with the source's value or fails because its load failed |
| LruCache.GetHolds | apps/hubble/src/utils/lruCache.ts:43-55 | a get that succeeds leaves its key and value in the current buffer, and one of a key that is there answers from it |
| LruCache.JustReadIsRetained | apps/hubble/src/utils/lruCache.ts:1-12 | a key just read is held until `maxSize` distinct other keys have been read |
| LruCache.ReadAgainNeedsNoLoad | apps/hubble/src/utils/lruCache.ts:35-56 | it is then answered though no load succeeds |
| LruCache.RetentionIsTight | apps/hubble/src/utils/lruCache.ts:37-41 | for every size, reads of just `maxSize` other keys that drop it |
| TtlMap.TTLMap.Set | apps/hubble/src/utils/ttl_map.ts:41-53 | records the touch, stores the entry beside the others, of which only a cleanup that is due drops any, and keeps the invariant between entries, touches and count |
| TtlMap.TTLMap.Get | apps/hubble/src/utils/ttl_map.ts:60-71 | answers the last value set exactly when it was set or reset less than the lifetime ago and not deleted or cleared since; otherwise drops the key, and no other |
| TtlMap.TTLMap.Delete | apps/hubble/src/utils/ttl_map.ts:78-87 | ends the key's life; true exactly when an entry was stored; the count drifts when that entry had expired |
| TtlMap.TTLMap.ResetTTL | apps/hubble/src/utils/ttl_map.ts:94-101 | renews a stored entry, expired or not |
| TtlMap.TTLMap.GetAll | apps/hubble/src/utils/ttl_map.ts:108-114 | answers exactly the pairs that `get` would answer at that instant, each key once |
| TtlMap.TTLMap.Clear | apps/hubble/src/utils/ttl_map.ts:119-122 | forgets everything |
| TtlMap.TTLMap.Size | apps/hubble/src/utils/ttl_map.ts:128-131 | the live entries, the expired ones still stored and the drift; equal to the live entries if and only if the other two are none, as after a cleanup |
| TtlMap.TTLMap.CleanupIfNeeded | apps/hubble/src/utils/ttl_map.ts:137-151 | when due, leaves exactly the live entries and makes the count exact; otherwise leaves all entries |
| TtlMap.SizeOvercounts | apps/hubble/src/utils/ttl_map.ts:78-84 | a run after which the size of an empty map is one |
| FarcasterTime.ToFarcasterTime | packages/core/src/time.ts:19-28 | succeeds exactly on the representable times and is within half a second |
| FarcasterTime.FarcasterTimeRoundTrip | packages/core/src/time.ts:35-37 | whole seconds survive the conversion there and back |
| FarcasterTime.MakeEventId | packages/core/src/time.ts:51-61 | the id is the double nearest to offset times 4096 plus sequence number, exactly that for offsets of 41 bits, and what longer sequence numbers give |
| FarcasterTime.EventIdOrder | packages/core/src/time.ts:39-41 | ids never go against the order of pairs of timestamp and sequence number; for 41-bit offsets they are ordered exactly as the pairs and stay below two to the 53 |
| FarcasterTime.RoundMonotone | packages/core/src/time.ts:60 | rounding to doubles keeps the order |
| FarcasterTime.LateIdsCollide | packages/core/src/time.ts:39-41 | just past 41 bits two pairs share an id, which is read as the later timestamp |
| FarcasterTime.ExtractRecovers | packages/core/src/time.ts:44-48 | for every safe timestamp, it is recovered from the rounded id if and only if it is after the epoch and the sequence number is far enough below 4096 for the distance between doubles |
| FarcasterTime.ExtractRecovers41 | packages/core/src/time.ts:44-48 | for 41-bit offsets it is recovered if and only if it is after the epoch |
| ByteArithmetic.BytesCompare | packages/core/src/bytes.ts:6-23 | decides the lexicographic order, zero exactly for equal strings |
| ByteStrings.LessTotal | packages/core/src/bytes.ts:6-23 | the order is total and antisymmetric |
| ByteStrings.LessTransitive | packages/core/src/bytes.ts:6-23 | the order is transitive |
| ByteArithmetic.BytesIncrement | packages/core/src/bytes.ts:25-41 | the carry loop computes the increment |
| ByteArithmetic.IncrementAddsOne | packages/core/src/bytes.ts:25-41 | the increment adds one to the big-endian value and grows exactly on all 255s |
| ByteArithmetic.BytesDecrement | packages/core/src/bytes.ts:43-63 | the borrow loop computes the decrement; the empty string is left alone |
| ByteArithmetic.DecrementTakesOne | packages/core/src/bytes.ts:43-63 | the decrement takes one away and fails exactly on zeros |
| ByteArithmetic.DecrementUndoesIncrement | packages/core/src/bytes.ts:25-63 | it undoes the increment if and only if some byte is below 255 |
| ByteArithmetic.BytesStartsWith | packages/core/src/bytes.ts:116-128 | decides the prefix relation |
| ByteArithmetic.RangeIsPrefix | packages/core/src/bytes.ts:25-41 | the range from a prefix to its increment holds all keys with the prefix if and only if some byte is below 255, and exactly those if and only if the last byte is |

## Left out

- `computeSyncHealthMessageStats`, the score and the summary of results: two counts, their difference, and filters over the results.
- RPC, HTTP, gossip, snapshots, the command line, the console, logging and metrics: plumbing with no state to speak of.
- The Rust stores, RocksDB and the Merkle trie's hashing and loading: only what their calls answer is modelled.
- Validations, builders, signers, signatures and ENS: branch-by-branch checks or library calls.
- `rsDbForEachIteratorByPrefix`: its pages come from a native call with its own page limit; the loop is the same as the one modelled.
- The hand-over from backfill to live listeners in `subscribe`: no claim is made across it.
- `subscribe` after an invalid shard request, where the handler continues on a destroyed stream: a valid request is required.
- Overlapping gets of the double-buffer cache, and loaders that answer `undefined`, which the cache takes for a miss.
- `isPrefix` decodes its buffers to strings: the model compares bytes, which agrees because one side is ten ASCII digits.
- `retryEventsFromBlock` and `retryEventsForFid`: what they fetch; their flushes are modelled.
- Writes that fail during the backfill, which end it early: `BufferedWriter` models them apart from the selection.
- Failed submissions of on-chain events: an event counts as submitted once it was handed to the hub.
- L2Restart.RestartMissesNone: proved under the assumptions stated in `Disciplined`: no retries, complete fetches and silent watchers are not enforced by the provider.
- L2Overlap.OverlapIsExposed: proved under the assumptions stated in `Careful`: a flush begins when the confirmed events it may pass are known, fetches are complete and watchers are silent.
- FarcasterTime.ExtractRecovers: timestamps are integers below two to the 53, which doubles hold exactly.
- JumpHash.JumpConsistentHash: shard counts up to two to the 21, where the division of doubles has the floor of the exact quotient; the server allows at most ten.
