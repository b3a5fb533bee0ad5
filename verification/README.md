# Barito Flow: verified models

Barito Flow moves logs. A producer receives them over gRPC, limits their rate
and writes them to Kafka; consumers read them back and store them in
Elasticsearch or, in batches, as objects in Google Cloud Storage. This project
models the parts whose correctness depends on interleaving, arithmetic at the
edges or mutation in place, and proves what they guarantee.

`dafny verify dfyconfig.toml` checks everything.

## How it is organised

Code that updates state is a class whose methods are proved equal to small
functions on values (`AfterFlush`, `AfterTake`, `RedisCall`, ...). The theorems
are about those functions, and about transition systems whose steps are those
functions: one step is one atomic section of the source, and steps of any number
of processes, handlers, callers or replicas interleave freely.

| file | content |
|---|---|
| `GcsOutput.dfy` | the buffering output: append, flush, stop, flush loop; byte-level framing |
| `ConsumerGroup.dfy` | the consumer group adapter: shared channel, session pointer, marks |
| `Delivery.dfy` | Kafka to GCS as a transition system; no loss in every run |
| `DeliveryOrder.dfy` | one session: order, exactly once, progress of the watermark; object contents; the Flush call |
| `ObjectNames.dfy` | when uploads may overwrite each other: the exact condition for losslessness |
| `ConsumerService.dfy` | message handler and polling loop; each handled message is a legal run of the transition system |
| `LeakyBuckets.dfy` | int32 arithmetic, the token bucket, conservation, the race inside `Take` |
| `RateLimiters.dfy` | the local limiter: one bucket per topic |
| `RedisLimiters.dfy` | the distributed limiter, failover between Redis and local buckets |
| `Redaction.dfy`, `RedactionWalk.dfy` | JSON path redaction: meaning, and the walk over the heap |
| `WireFormat.dfy` | the two Kafka encodings of a batch |
| `TopicProtocol.dfy`, `KafkaProducer.dfy` | topic creation by racing producers, and the sequential code |

Outcomes that the environment decides (did the upload work, how much of a write
reached the file, what did Redis answer, which topics did the broker list, in
which order a map is visited) are parameters or free choices of a step, so the
theorems hold for all of them.

Assumed of the libraries: marking raises a per-partition watermark monotonically
and ignores partitions that are not claimed; a session starts each claim at the
committed offset; INCRBY is atomic; EXPIRE NX leaves an existing time to live
alone; unmarshalling inverts marshalling; a short write reports an error.

## What the code does not guarantee

Each of these is proved, with the input that shows it, and so is the condition
under which the guarantee does hold.

- **Two uploads for one topic in the same second lose data.** Besides fixed
  parts an object's name holds only the topic and the second
  (`flow/consumer_output_gcs.go:192`), and an upload replaces an object of the same name. So two flushes of one output collide,
  and so do flushes of two replicas that consume the same topic. A sequence of names
  is safe for all runs if and only if it has no repetition (`LosslessIffNamesDistinct`).
- **Limits that fall and rise again grant too much.** Raising a limit adds tokens,
  lowering it removes none. Between two refills a schedule of limits lets some
  requests be granted more than its largest limit if and only if a limit rises
  after one fell (`OvergrantIffRiseAfterFall`); tokens left and granted add up to
  the current limit if and only if no limit fell (`ExactlyTheLimitIffNeverLowered`).
  The balance can even leave the int32 range and wrap around
  (`AlternatingLimitsWrap`); the bucket is exact if and only if the exact balance
  fits (`AgreesIffFits`).
- **A batch is not always decided like its logs.** On a bucket in debt an empty batch
  is refused although it charges nothing, and a batch whose subtraction wraps around
  is granted although no single log would be (`BatchGrantedFromDebt`).
  `BatchAdditive` and `BatchLikeSingles` give the exact condition on the balance.
- **The race in `Take` overshoots.** The overshoot is at most k - 1 requests, reached exactly
  (`OvershootReached`), for up to k callers if and only if k requests of the largest
  size fit into 2^31 (`OvershootBoundedIff`); beyond that the debt wraps around.
- **An oversized first batch blocks a topic on Redis.** The early return precedes
  the EXPIRE, so the key is left without a time to live and above the limit. A reply
  that is lost after INCRBY was applied also leaves a key without a time to live,
  and so does an EXPIRE that does not get through; nothing else does
  (`CreatorLeavesNoTtlIff`, `WhyNoTtl`).
- **And then the counter wraps around.** Rejected requests are charged as well, and the counter
  is read as an int32. The blocked topic stays blocked as long as the
  charged total is below 2^31 and is let through once it reads as negative
  (`OversizedFirstBatchBlocksIff`, `NextOnOrphan`); at a multiple of 2^32 the key
  looks new and gets its EXPIRE (`OrphanForEverIff`). Below 2^31 the limiter admits the
  longest prefix within the limit, no more than the local limiter does, and N + 1
  limits in a failover; each of these holds if and only if the counter stays there
  (`LongestPrefixIffNoWrap`, `RedisRefinesLocalIffNoWrap`, `FailoverBoundIffNoWrap`).
- **A full redaction hint must fit.** A matched string shorter than a hint makes
  the slice expression panic; the walk succeeds if and only if no matched string
  is that short (`TraverseJSON`).
- **With failing stores the two encodings differ.** A failed store ends a
  collection message but not the messages after it; both store the same if and
  only if no store succeeds after a failed one (`EncodingsEquivalent`).
- **A stopped output holds its handler for ever.** The handler retries until the
  message is accepted, and a stopped output never accepts
  (`RetryNeverEndsOnceStopped`); otherwise one working write after a successful flush
  ends the retries (`RetryEndsAfterAFlush`).
- **Empty messages alone are never uploaded.** Only message bytes are counted, and a
  flush skips a counter of zero (`StopUploadsTheRest`, `RoundUploadsIff`).
- **A topic added to the cache may be lost again** when two handlers of one process add theirs
  at the same time (`RacingAppendsLoseOne`); the next lookup then asks the broker.
- The comment at `flow/redis_rate_limiter.go:126` takes "reply equals count" to mean that
  the key is new. The model follows the code: the comparison also succeeds
  on an existing key with count zero.

## Model

| member | source | states |
|---|---|---|
| `Delivery.DeliveryIsLossless` | flow/consumer_output_gcs.go:244-287 | For any number of processes sharing the group and any interleaving of claimers, worker, flusher, failed uploads, partial writes, late, repeated or lost commits, rebalances and crashes: if object names are distinct, every record below a committed offset is byte for byte inside an object, or was not convertible. |
| `Delivery.WatermarksAreContiguous` | flow/kafka_factory.go:133-144 | In every reachable state, every offset below a process's marked watermark is uploaded, unconvertible, or in that same process's buffer, although messages of earlier sessions are marked on the current one. |
| `Delivery.StepKeeps` | flow/consumer_worker.go:86-101 | The delivery invariant (queued, handled and marked records are covered by what precedes them) survives every single action of every process and of the broker. |
| `Delivery.JoinReplacesOnlySession` | flow/kafka_factory.go:93-100 | A rebalance is always possible and replaces the session by one at the committed offsets; queued messages, the record in hand, buffer, held records and a flush under way stay. |
| `Delivery.CrashLosesEverything` | flow/kafka_factory.go:69-77 | After a crash a process has no session, no queued message, an empty buffer and no flush under way. |
| `Delivery.MutexCoversAppendAndFlush` | flow/consumer_output_gcs.go:244-247 | An append or a new flush waits for a flush under way; rebalances, deliveries, drops, marks, a stop and a crash do not, in any phase of it. |
| `DeliveryOrder.StaleMessageIsMarked` | flow/kafka_factory.go:110-137 | For every log, a reachable run in which a record delivered in one session is taken and marked in the next one without being delivered there, so that the watermark is ahead of the session's deliveries. |
| `DeliveryOrder.ExactlyOnceInASession` | flow/barito_kafka_consumer_gcs_service.go:134-162 | A newly started process joins a group in any state, among any other processes: until it rejoins or crashes, per claimed partition its uploaded then buffered records are the first convertible ones from the committed offset on, each once, in offset order, through any failed uploads and writes. |
| `DeliveryOrder.ObjectsAreTheirRecords` | flow/consumer_output_gcs.go:140-142 | With clean writes, through any crashes, rebalances and name collisions, each object is exactly its records' texts, one per line, and splitting on newlines returns them. |
| `DeliveryOrder.WatermarkKeepsUp` | flow/consumer_worker.go:89-95 | In any such session, from any committed offsets and among any other processes, the watermark lags behind deliveries by exactly the records in the channel or in hand; when both are empty a commit covers everything delivered. |
| `DeliveryOrder.SessionNeverGoesBack` | flow/kafka_factory.go:133-137 | Until a process rejoins or crashes, whatever the others do, its next offsets and watermarks never fall below those its session had. |
| `DeliveryOrder.SessionStartsAtCommitted` | flow/kafka_factory.go:93-100 | After any later run without rejoin or crash, a session delivers from and marks at least the offsets committed when it began. |
| `DeliveryOrder.FlushIsItsActions` | flow/consumer_output_gcs.go:244-287 | In any system, an uninterrupted Flush with its commit hook is a legal run of the flusher: on success the buffer is an object under the new name, every watermark is requested for commit in whatever order, and the output is empty; otherwise nothing changed. |
| `ObjectNames.LosslessIffNamesDistinct` | flow/consumer_output_gcs.go:192 | For every name sequence: all runs uploading under these names are lossless if and only if no name repeats. |
| `ObjectNames.RepetitionLoses` | flow/consumer_output_gcs.go:192 | After a reachable run that reuses a name, a committed record is in no object. |
| `GcsOutput.Append` | flow/consumer_output_gcs.go:132-143 | Whatever the file does with the writes, earlier bytes stay, and an accepted message is in the buffer whole; the stop flag is untouched. |
| `GcsOutput.Gcs.OnMessage` | flow/consumer_output_gcs.go:127-144 | Stopped and full outputs reject and change nothing; otherwise the bytes that reached the file and the newline are appended and the counter rises by the bytes written, newline excluded; only the first write's error is returned. |
| `GcsOutput.Gcs.Flush` | flow/consumer_output_gcs.go:244-287 | Empty buffer or failed upload: no effect at all, so no hook. Otherwise first the upload of the whole old buffer, then every registered hook once and in order, then the recreation of the buffer. |
| `GcsOutput.Gcs.Stop` | flow/consumer_output_gcs.go:147-151 | The output is stopped whatever happens, and its last flush has the effects of a Flush of the old buffer, in the same order. |
| `GcsOutput.Gcs.StartRound` | flow/consumer_output_gcs.go:158-186 | One round of the flush loop: a full buffer is flushed at once, another one only when the timer fired, a stopped output never. |
| `GcsOutput.AcceptedIff` | flow/consumer_output_gcs.go:127-144 | A message is accepted iff the output runs, its counter is below the threshold and the write did not fail; rejected before the write nothing changes, and after a failed write what was written stays and is counted. |
| `GcsOutput.RoundUploadsIff` | flow/consumer_output_gcs.go:158-186 | A round uploads iff the upload works, the output runs, has counted bytes and is full or the timer fired; then the whole buffer is one object; otherwise nothing changes. |
| `GcsOutput.StopUploadsTheRest` | flow/consumer_output_gcs.go:147-151 | A stop uploads what is left iff bytes are counted and the upload works, and otherwise keeps it. |
| `GcsOutput.StopIsFinal` | flow/consumer_output_gcs.go:127-130 | In every run, after a stop no more bytes reach the file and the output never runs again. |
| `GcsOutput.EveryByteOnce` | flow/consumer_output_gcs.go:140-142 | In every run, torn writes included, objects followed by the buffer are all bytes that reached a file, in order and once. |
| `GcsOutput.FullOutputRecovers` | flow/consumer_output_gcs.go:169-175 | An output that rejects a message as full accepts it after the next round whose upload succeeds, with the rejected state's buffer as the new object. |
| `GcsOutput.RunRefinesBatches` | flow/consumer_output_gcs.go:127-187 | Any run of offers, rounds and stops with clean writes refines closed and open batches of whole messages whose concatenation is exactly the accepted messages. |
| `GcsOutput.NothingLostOrRepeated` | flow/consumer_output_gcs.go:135-143 | Uploaded objects followed by the buffer are the newline-framed accepted messages; newline-free messages are recovered exactly by splitting. |
| `GcsOutput.FrameRoundTrip` | flow/consumer_output_gcs.go:140-142 | Splitting framed newline-free messages on newlines returns them with nothing left over. |
| `GcsOutput.CounterBounded` | flow/consumer_output_gcs.go:135-141 | With a positive threshold the counter never exceeds threshold - 1 plus the longest message; with any other threshold nothing is ever accepted. |
| `ConsumerGroup.ClaimIsConsecutive` | flow/kafka_factory.go:110-119 | A claimer puts consecutive offsets of its partition, in order, behind whatever is queued, up to the channel's capacity. |
| `ConsumerGroup.ConsumerGroupAdapter.ConsumeClaim` | flow/kafka_factory.go:110-119 | The claimer's loop equals the claim function of `ClaimIsConsecutive`. |
| `ConsumerService.ConsumerWorker.HandleNext` | flow/consumer_worker.go:89-95 | One message through the worker is marked iff it cannot be converted or some attempt succeeds (`RetryEndsAfterAFlush` says when one does), and then its bytes are whole in the buffer; with flushes and their commits beside it, it is a legal run of `Delivery` in any system that shows the worker. |
| `ConsumerService.ConsumerWorker.FireSuccess` | flow/barito_kafka_consumer_gcs_service.go:134-162 | The handler drops an unconvertible record without touching the output, and is done with any other iff some attempt succeeds; either way it is a legal run. |
| `ConsumerService.ConsumerWorker.OfferUntilAccepted` | flow/barito_kafka_consumer_gcs_service.go:153-161 | The retry loop ends with acceptance iff some attempt meets, after the rejected ones and the flushes before it, a running output that is not full, with a write that works; then the message is in the buffer, and earlier objects are kept. |
| `ConsumerService.RetryEndsAfterAFlush` | flow/barito_kafka_consumer_gcs_service.go:153-161 | On a running output with a positive threshold, one attempt after a successful flush whose write works is enough. |
| `ConsumerService.RetryNeverEndsOnceStopped` | flow/barito_kafka_consumer_gcs_service.go:153-161 | On a stopped output no attempt ever succeeds. |
| `ConsumerService.ConsumerWorker.FlusherRuns` | flow/consumer_output_gcs.go:154-187 | Any number of flushes between two attempts, each with its commits and object name, is a legal run and removes no object of this output. |
| `ConsumerService.ConsumerWorker.FlushOnce` | flow/consumer_output_gcs.go:244-287 | A Flush and one commit for each call of the worker's hook among its effects: none without an upload, one after it and before the buffer is recreated; together the system step of `FlushIsItsActions`. |
| `ConsumerService.ConsumerWorker.OnConsumerFlush` | flow/consumer_worker.go:77-84 | The hook commits the watermarks of the session current at that moment, and nothing without a session. |
| `ConsumerService.ConsumerWorker.Rebalance` | flow/kafka_factory.go:93-100 | Giving the consumer a new session at the committed offsets is the protocol's Join; the channel and the held records stay. |
| `ConsumerService.ConsumerWorker.Claim` | flow/kafka_factory.go:110-119 | A claimer's loop is a run of deliveries of its partition, in any system that shows the worker. |
| `ConsumerService.ConsumerWorker.StopOutput` | flow/consumer_output_gcs.go:147-151 | Stopping the output is the protocol's Halt and a flush with its commit. |
| `ConsumerService.ConsumerWorker.Restart` | flow/barito_kafka_consumer_gcs_service.go:105-126 | The objects made for a topic after a restart show the process that a crash leaves. |
| `ConsumerService.HandledExactlyWhenCreated` | flow/barito_kafka_consumer_gcs_service.go:64-103 | Over all polling rounds, a topic is handled if and only if some round listed it, it matches the pattern and both its creations succeeded then. |
| `ConsumerService.Service.Install` | flow/barito_kafka_consumer_gcs_service.go:125-173 | The new worker is wired to its topic's registered output, to a consumer of its own for that topic and group, and that output's only hook is this worker's; workers and flush loops are started once. |
| `ConsumerService.Service.SpawnLogsWorker` | flow/barito_kafka_consumer_gcs_service.go:105-174 | Succeeds if and only if output and consumer could be made; a failure starts nothing; existing workers are untouched; the wiring invariant holds. |
| `ConsumerService.Service.Poll` | flow/barito_kafka_consumer_gcs_service.go:77-96 | One round keeps the wiring invariant, starts no topic twice and handles exactly the topics listed, matching and created in it. |
| `ConsumerService.Service.Start` | flow/barito_kafka_consumer_gcs_service.go:64-103 | After any sequence of rounds at most one worker per topic was started and each output commits the worker that feeds it; the handled topics are those of `HandledExactlyWhenCreated`. |
| `LeakyBuckets.LeakyBucket.UpdateMax` | flow/leaky_bucket.go:28-35 | The limit is replaced; a higher one adds the difference to the tokens, wrapping around, a lower one leaves them alone. |
| `LeakyBuckets.LeakyBucket.Take` | flow/leaky_bucket.go:45-55 | Sequentially: takes the whole count or nothing, deciding on the wrapped difference. |
| `LeakyBuckets.ConservationModulo` | flow/leaky_bucket.go:28-55 | With no assumption: tokens left plus granted equal the starting tokens plus all rises of the limit, modulo 2^32. |
| `LeakyBuckets.IdealConservation` | flow/leaky_bucket.go:28-55 | Over unbounded integers the same holds exactly and tokens stay non-negative. |
| `LeakyBuckets.AgreesIffFits` | flow/leaky_bucket.go:28-55 | For int32 counts from a bucket that is not in debt: the int32 bucket decides and counts exactly like the unbounded one throughout a run if and only if the unbounded balance stays below 2^31 throughout. |
| `LeakyBuckets.ExactlyTheLimitIffNeverLowered` | flow/leaky_bucket.go:28-55 | Since a refill of any bucket with a non-negative limit: if limits never decreased, nothing wraps; and on every run whose exact balance fits an int32, tokens left plus granted equal the current limit if and only if limits never decreased. |
| `LeakyBuckets.OvergrantIffRiseAfterFall` | flow/leaky_bucket.go:30-33 | For every schedule of non-negative limits since a refill: some counts are granted more than the largest limit if and only if a limit rises after one fell. |
| `LeakyBuckets.AlternatingLimitsGrantMore` | flow/leaky_bucket.go:30-33 | The simplest such schedule: for every positive limit, dropping to zero and returning grants twice the largest limit. |
| `LeakyBuckets.AlternatingLimitsWrap` | flow/leaky_bucket.go:31 | A concrete run without any grant after which one token is refused because the balance wrapped. |
| `LeakyBuckets.BatchAdditive` | flow/leaky_bucket.go:45-55 | For every bucket and n below 2^31: n at once is decided like n single calls if and only if the bucket is not in debt, or n is positive and its subtraction does not wrap, or the debt is the deepest possible; admitted both ways, the same tokens are left. |
| `LeakyBuckets.BatchGrantedFromDebt` | flow/leaky_bucket.go:47-52 | A reachable bucket in debt that grants three tokens at once and not one single token. |
| `LeakyBuckets.RaceKeepsBalance` | flow/leaky_bucket.go:45-55 | Over any interleaving of unlocked checks and locked subtractions, with k*C at most 2^31: tokens plus granted are constant and tokens minus pending counts stay above minus k-1 requests. |
| `LeakyBuckets.OvershootBounded` | flow/leaky_bucket.go:45-55 | k callers with counts at most C, k*C at most 2^31, can be granted and owed at most the limit plus (k-1)*C, in every interleaving. |
| `LeakyBuckets.OvershootBoundedIff` | flow/leaky_bucket.go:45-55 | That bound holds for every limit and up to k callers if and only if k*C is at most 2^31. |
| `LeakyBuckets.OvershootReached` | flow/leaky_bucket.go:45-55 | For every k and C some interleaving grants exactly that much. |
| `LeakyBuckets.TakeIsCheckAndSubtract` | flow/leaky_bucket.go:45-55 | In the race, a Take that nobody interrupts is its check and its subtraction, with the sequential result. |
| `RateLimiters.RateLimiter.IsHitLimit` | flow/rate_limiter.go:43-53 | Only the topic's own bucket changes: made full when missing, moved to the current limit, then charged; hit iff the charge was refused. |
| `RateLimiters.RateLimiter.RefillBuckets` | flow/rate_limiter.go:90-94 | In whatever order the map is visited, every bucket is full afterwards and no limit changes. |
| `RateLimiters.TopicIsolation` | flow/rate_limiter.go:43-53 | Any interleaved run of many topics, with refills reaching topics one by one, looks to each topic like the run of its own events alone: same bucket, same decisions. |
| `RateLimiters.TopicServesItsBucket` | flow/rate_limiter.go:43-53 | The calls of a topic between refills admit exactly the tokens, and leave the bucket, of the same calls on one bucket, full at first if there was none, so the bucket's laws hold for the limiter. |
| `RateLimiters.RefillInAnyOrder` | flow/rate_limiter.go:90-94 | Visiting all topics in any order, with repetitions, refills every bucket. |
| `RateLimiters.BatchLikeSingles` | flow/grpc_producer.go:231-232 | Through the limiter, for every state of it: charging a batch hits the limit like charging its logs one by one if and only if the charged bucket meets the condition of `BatchAdditive`; a non-empty batch admitted both ways leaves all buckets equal. |
| `RedisLimiters.RedisRateLimiter.IsHitLimit` | flow/redis_rate_limiter.go:100-132 | In local mode Redis is untouched and the local limiter decides; in Redis mode the local limiter is untouched, and key, decision and mode are those of one Redis call for every outcome of both commands. |
| `RedisLimiters.CallIsItsSteps` | flow/redis_rate_limiter.go:110-131 | A whole call equals its one or two steps of the replica system. |
| `RedisLimiters.CallDecision` | flow/redis_rate_limiter.go:110-131 | For all command outcomes: a request is admitted iff INCRBY was answered, the total as an int32 is within the limit and, if it equals the count, EXPIRE was answered too; local mode follows iff a sent command was refused; the count is charged iff INCRBY was applied. |
| `RedisLimiters.KeysAreApart` | flow/redis_rate_limiter.go:197-203 | A topic can be read back from its key, so two topics of one limiter never share a counter. |
| `RedisLimiters.RedisTopicIsolation` | flow/redis_rate_limiter.go:110-131 | On one Redis, over any interleaving of all replicas' commands and of expiries, each topic's counter and verdicts are those of its own commands alone. |
| `RedisLimiters.CallIsItsCommands` | flow/redis_rate_limiter.go:161-184 | A whole call changes the database as its INCRBY and, if the verdict asks for it, its EXPIRE on the topic's key. |
| `RedisLimiters.FailoverBound` | flow/redis_rate_limiter.go:100-132 | After any history of N replicas under one limit L, any stretch without key expiry and local refill admits at most (N+1)*L, on top of calls already open when it began; counts are int32 and the counter stays below 2^31 in the stretch. |
| `RedisLimiters.FailoverBoundReached` | flow/redis_rate_limiter.go:215-227 | For every N and L some stretch from the start admits exactly (N+1)*L, and after a call left open across a key expiry some stretch admits exactly that much plus the open call. |
| `RedisLimiters.FailoverBoundIffNoWrap` | flow/redis_rate_limiter.go:161-171 | From the start, (N+1)*L bounds all windows whose counter stays within a number if and only if that number is below 2^31. |
| `RedisLimiters.RefillAdmitsMore` | flow/rate_limiter.go:90-94 | One local refill within a stretch admits one more limit, so the premise of the bound is needed. |
| `RedisLimiters.ExpiryAdmitsMore` | flow/redis_rate_limiter.go:173-184 | So does one expiry of the key. |
| `RedisLimiters.WhyNoTtl` | flow/redis_rate_limiter.go:110-131 | In every reachable state, whatever the counter, a key with tokens and no time to live has its creator's EXPIRE still ahead, or that EXPIRE failed, or the creating INCRBY exceeded the limit, was not answered, or had a count of 2^31 or more. |
| `RedisLimiters.CreatorLeavesNoTtlIff` | flow/redis_rate_limiter.go:110-131 | The call bringing a key its first tokens leaves it without a time to live iff its INCRBY was applied and its reply was lost, its count exceeds the limit, or its EXPIRE was not applied. |
| `RedisLimiters.NextOnOrphan` | flow/redis_rate_limiter.go:110-129 | The next request on such a key with no EXPIRE under way is charged; it sends an EXPIRE iff the total was a multiple of 2^32; while the total is below 2^32 it is rejected iff the total with it is above the limit and below 2^31. |
| `RedisLimiters.OrphanForEverIff` | flow/redis_rate_limiter.go:122-129 | Such a key stays without a time to live in all runs whose counter stays within a number if and only if that number is below the next multiple of 2^32. |
| `RedisLimiters.OrphanBudget` | flow/redis_rate_limiter.go:116-119 | While the counter is below 2^31, it never falls and all further admissions on such a key fit in what the limit had left; above the limit there are none. |
| `RedisLimiters.OversizedFirstBatchBlocksIff` | flow/redis_rate_limiter.go:116-119 | After a first batch that exceeds the limit, Redis admits nothing for the topic in all runs whose counter stays within a number if and only if that number is below 2^31. |
| `RedisLimiters.RedisDecision` | flow/redis_rate_limiter.go:110-124 | Without errors, a request is admitted iff the running sum of all requests so far, rejected ones included, truncated to an int32, is within the limit. |
| `RedisLimiters.LongestPrefixIffNoWrap` | flow/redis_rate_limiter.go:161-171 | For int32 counts and a non-negative limit, admission is exactly the longest prefix with running sum within the limit, if and only if the total stays below 2^31. |
| `RedisLimiters.RedisRefinesLocalIffNoWrap` | flow/redis_rate_limiter.go:110-131 | Whatever Redis admits the local limiter admits, on all request sequences with a total within a number, if and only if that number is below 2^31. |
| `Redaction.RedactStringShape` | redact/rule.go:23-35 | Redaction is defined iff the string is as long as each positive hint, and then is first hint, tag, last hint. |
| `Redaction.EachLeafByItsFirstRule` | redact/rule.go:60-88 | For every way of keys and indices into a document: the redacted document has a value there iff the original has, of the same kind, keys or length; a string becomes the hints and tag of the first rule, by index, that matches its path (a dot and the key per entry, brackets per element), or stays if none matches; other leaves stay. |
| `Redaction.InRangeIffLeavesFit` | redact/rule.go:23-35 | The walk stays in range iff every string in the document is as long as each hint of the first rule matching its path. |
| `Redaction.StringRevealsHintsOnly` | redact/rule.go:23-35 | Two strings redact to the same iff they agree on the hints, whatever the length of the hidden middles. |
| `Redaction.RevealsHintsOnly` | redact/rule.go:60-88 | Two documents redact to the same one iff they have the same shape and keys, agree on unmatched leaves, and agree in the hints on matched ones. |
| `Redaction.Idempotent` | redact/rule.go:60-88 | Redacting a redacted document is in range and changes nothing, for all rules and hint combinations. |
| `RedactionWalk.TraverseJSON` | redact/rule.go:60-88 | For every map iteration order, the walk rewrites the document in its own heap cells into exactly the document of `EachLeafByItsFirstRule`, and panics iff some matched string is too short; a string itself is rewritten by the rule of least index that matches. |
| `RedactionWalk.WalkEntries` | redact/rule.go:76-78 | The loop over entries keeps the keys and redacts each value exactly once, in any order; it stops early only at an entry that is out of range. |
| `WireFormat.ProduceCollection` | flow/grpc_producer.go:244-248 | Every log is stamped in place, keeping its own context, and one message carries the stamped collection with the format header. |
| `WireFormat.ProduceSeparately` | flow/grpc_producer.go:253-263 | Logs get the batch's context and a stamp and are sent in order up to and including the first failing send; later logs are untouched; success iff all sends succeeded. |
| `WireFormat.OnStoreTimber` | flow/barito_consumer_service.go:285-321 | An undecodable message stores nothing; otherwise its logs are stored in order, under the message's context, until a store fails. |
| `WireFormat.FirstHeaderDecides` | flow/barito_consumer_service.go:276-283 | The first header with the format key decides alone; without one a message is a single log. |
| `WireFormat.DecodedAsHeaderSays` | flow/barito_consumer_service.go:289-307 | Only the collection format is read as a collection, every other one as a single log; all logs get the message's context; bytes of another kind decode to nothing. |
| `WireFormat.EncodingsEquivalent` | flow/barito_consumer_service.go:309-317 | For every batch, context and times: all messages of both forms go to the batch's topic; the collection form stores a prefix of what the plain form stores, both store the same iff no store succeeds after a failed one, and without failures that is the whole batch with context, content and time. |
| `WireFormat.StoresLongestCleanPrefix` | flow/barito_consumer_service.go:310-317 | The collection form stores exactly the logs before the first failing store. |
| `TopicProtocol.ProtocolHolds` | flow/grpc_producer.go:301-331 | For any number of producers and handlers, any interleaving, refused, lost and failed requests and stale but sound listings: caches stay within the broker's topics, the topic of every log and every announcement exists, each topic is announced at most once, only by its creator after creating it, and a creator logs to its topic only after announcing it or failing to. |
| `TopicProtocol.StepKeeps` | flow/grpc_producer.go:301-371 | Every step of every handler keeps these properties and the invariant behind them. |
| `TopicProtocol.OnlyDoneGoesOn` | flow/grpc_producer.go:313-326 | A creation or announcement that was refused, or whose answer was lost, ends the request. |
| `TopicProtocol.RacingAppendsLoseOne` | flow/kafka_admin.go:74-76 | Of two handlers of one process that add their topics at the same time, the cache keeps only the later one's. |
| `KafkaProducer.ProduceIsARun` | flow/grpc_producer.go:333-371 | An uninterrupted request is a run of the protocol: what it leaves at the broker are its effects, and its admin's topic list is the process's cache. |
| `KafkaProducer.ExistIsARun` | flow/kafka_admin.go:55-72 | An uninterrupted Exist is a run of the protocol that ends at the send if the topic was found and at the creation if not. |
| `KafkaProducer.ExistIsSound` | flow/kafka_admin.go:55-72 | With sound listings a topic is found only if it exists, the cache stays sound, and a topic in the forced refresh is always found. |
| `KafkaProducer.ExistDecision` | flow/kafka_admin.go:55-72 | With a filled cache: a hit asks the broker nothing; otherwise the topic is found iff the forced listing has it, or the one after an empty listing; a failed listing leaves the cache. |
| `KafkaProducer.ExistFillsTheCache` | flow/kafka_admin.go:47-53 | With an empty cache the list is asked for first, and then the same holds. |
| `KafkaProducer.KafkaAdmin.Exist` | flow/kafka_admin.go:55-72 | A cache miss forces one refresh, and an empty result one more listing request. |
| `KafkaProducer.ProducerService.CreateTopicIfNotExist` | flow/grpc_producer.go:301-331 | An unknown topic is created, cached and announced in this order, each only if the step before worked; a failed announcement leaves the topic cached. |
| `KafkaProducer.ProducerService.HandleProduce` | flow/grpc_producer.go:333-351 | The log is sent only if the topic is known or was created and announced, and after that; success iff all of it worked. |
| `KafkaProducer.RequestOutcomes` | flow/grpc_producer.go:301-351 | The four things a request can do: log to a known topic; a refused creation; a creation with a failed announcement; a creation, its announcement and the log. |

## Left out

- Body of `uploadToGCS`: an upload is one step that stores the whole buffer or fails and leaves it; with an empty compressor setting the gzip writer is never closed, and that case is not modelled.
- Object names as strings: a name is a number, and two uploads collide if their numbers are equal.
- Sarama, Redis, gRPC and protobuf internals, beyond the contracts listed above.
- Log retention, compaction and gaps in offsets: a partition is a dense, unbounded sequence of records, each with a fixed conversion result.
- Record conversion: `ConvertTimberToLogFormatGCSSimpleString` and the JSON marshaller are a function from records to optional bytes. The GCS handler ignores the format header and decodes every record as a single log; that, too, is part of this function.
- ConsumerGroup.ConsumerGroupAdapter.CommitOffsets: watermarks are committed for every claimed partition, while the library commits only those that changed; the extra requests repeat offsets the session started from.
- Delivery.DeliveryIsLossless: `OnMessage` reads the stop flag before it takes the lock, so a message may still be appended after a stop; the transition system allows this always, and `OfferTo` describes the check itself.
- Delivery.DeliveryIsLossless: safety only; that an upload succeeds eventually is not claimed. Records left in a buffer whose uploads fail are consumed again after a restart, so they can appear twice.
- ConsumerService.ConsumerWorker.HandleNext: flushes run between two attempts here; flushes interleaved at finer grain, rebalances and crashes are in the transition system.
- ConsumerService.Service.Start: `Close` as a loop over the outputs (each stop is `StopOutput`), the worker's stop channel and the notification and error loops; concurrent writes to the two maps are not modelled.
- LeakyBuckets.LeakyBucket.Take: the sequential call; the unlocked check is in the race model. Races between `Refill` or `UpdateMax` and `Take` beyond whole-field interleaving are Go data races.
- LeakyBuckets.OvershootBounded: no refill or limit change during the race.
- LeakyBuckets.BatchAdditive: counts of 2^31 and more, which `Take` truncates, are left out.
- RedisLimiters.RedisRateLimiter.IsHitLimit: the mutex serialises calls, as cmds/action.go:281 configures; without it a replica could have several calls open. The default fallback limiter, which admits everything, is not modelled.
- RedisLimiters.FailoverBound: one topic, and one limit for Redis and all local buckets; while the counter is below 2^31, as `FailoverBoundIffNoWrap` shows to be necessary. The int64 overflow of INCRBY itself is not modelled.
- RedisLimiters.OrphanBudget: while the counter is below 2^31; `NextOnOrphan` and `OversizedFirstBatchBlocksIff` say what happens after that.
- `Rules.Redact` as text: JSON parsing and printing, static rules, regular expressions and the lookup of an application's rules. Strings are sequences of characters where Go slices bytes, so a hint that cuts a multi-byte character, which printing would replace, is not modelled.
- WireFormat.ProduceSeparately: the part after rate limit and topic creation; a rejected batch is only stamped for metrics. Clock readings are parameters.
- Topic prefix and suffix of the producer, which only name the topic that the requests are for.
- Partition count and replication factor of a created topic, with its int16 truncation.
- TopicProtocol.ProtocolHolds: the topic that announcements are sent to is not modelled, only their content; topics are never deleted; and a send that the library repeats on its own counts once.
- `getRateLimitInfo`: it only selects fields of the context.
- The Elasticsearch path: documents are added asynchronously and offsets marked whatever the result, so there is no delivery guarantee to state.
- Gubernator limiter, metrics, logging, configuration, CLI, TLS and the market client.
- Time: tickers, the time to live and refills are steps that may happen at any moment.
