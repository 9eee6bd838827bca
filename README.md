# partitioned-channel: the sequential routing layer, in Dafny

This project models the core of the Kotlin library `partitioned-channel`
(package `io.github.eliahburns`). The library fans one stream of
elements out into a fixed number of partitions. A policy picks the
partition of each element. Each partition is then processed in order,
and one element's failure is caught per element. The model covers the
part of this that runs sequentially:

- `lang.dfy` (`Lang`): Kotlin nullables, the throwables the code raises
  or catches, and a call's completion (it returns a value or it throws).
- `channels.dfy` (`Channels`): a stand-in for a kotlinx `Channel`. It is
  a bounded FIFO buffer with a capacity, a closed-for-send flag and a
  close cause. `send` on a full buffer reports `Suspended` instead of
  suspending.
- `partition_policy.dfy` (`Policies`): `RoundRobinPartitionPolicy` as a
  class whose `Invoke` increments a counter, plus the `PartitionPolicy`
  kinds used with the library. It also holds the arithmetic facts about
  the selections. The JVM's truncating `Long` remainder is written out
  (`TruncRem`).
- `partition_map.dfy` (`PartitionMap`): `tryAction` with `MapEither` and
  `MapActionException`. Also a partition worker's loop that applies it
  element by element (`RunWorker`, specified by `Work`).
- `partitioned_channel.dfy` (`PartitionedChannels`): `PartitionedChannel`
  as a class over a list of channels. It has `send`, `close`, `iterator`
  and the single-producer dispatch loop (`SendAll`). The ghost field
  `queues` mirrors the buffers, and pure functions (`Route`,
  `RouteFirst`, `Picked`) state where elements land.
  `PartitionedChannelExamples` works one round-robin example through.
- `array_multi_channel.dfy` (`ArrayMultiChannels`): `ArrayMultiChannel`
  over an `array` that starts as nulls and is filled by `init`. It has a
  bounds-checked `get` and `close`.
- `partitioned_multi_channel.dfy` (`PartitionedMultiChannels`):
  `PartitionedMultiChannel` over an `ArrayMultiChannel`, with
  `offer`/`send`/`close`/`isClosedForSend`/`iterator`. It also has this
  package's round-robin policy without `abs`, `MapAndMergeResult`, and
  the per-element step of `mapAndMergePartitions`.

Two behaviours of the code are easy to misread:

- The round-robin counter is incremented before the remainder is taken.
  So the k-th call returns `k mod N`, and the first element goes to
  partition `1 % N`, not partition 0.
  `Policies.FromStartSelectsSuccessor` states this, and
  `PartitionedChannelExamples.RoundRobinNineOverThree` shows it on
  `0, ..., 8` over three partitions. Partition 0 receives `2, 5, 8`.
- A partition count of 0 is not rejected at construction. The first
  round-robin call divides by zero. The model therefore requires a
  non-zero count when the policy is called (`Callable`).

The `channel` package does not match its dependency as written:

- `PartitionedMultiChannel.kt:40` builds
  `ArrayMultiChannel(size = …, capacity = …)`. But `ArrayMultiChannel`
  declares `capacity` (the number of channels) and `capacityPerChannel`
  (the buffer size of each).
- `PartitionedMultiChannel.kt:48,52,61,69` call `map` and `iterator` on
  it, but it is not `Iterable`.
- `ArrayMultiChannelTest.kt:13,23` build it with the same stale
  arguments, `ArrayMultiChannel(size = …, capacity = …)`.

The model takes the evident meaning:

- the number of channels is `totalPartitions`;
- each buffer is `partitionCapacity`;
- iteration is over the channels in index order;
- in the test, `size` is the number of channels and `capacity` the
  buffer of each. `ArrayMultiChannels.SendThenPollEach` reads the test
  this way.

## Model

| member | source | states |
|---|---|---|
| Channels.Channel.constructor | src/main/kotlin/io/github/eliahburns/partition/PartitionedChannel.kt:47 | `Channel(capacity)` is an empty, open buffer of that capacity |
| Channels.Channel.SendException | src/main/kotlin/io/github/eliahburns/partition/PartitionedChannel.kt:57-60 | a send to a closed channel throws its close cause, or `ClosedSendChannelException` when it was closed without one |
| Channels.Channel.Send | src/main/kotlin/io/github/eliahburns/partition/PartitionedChannel.kt:57-60 | closed: throws and nothing changes; room: appends the element at the tail; full: the caller would wait and nothing changes; the closed flag and cause never change |
| Channels.Channel.Offer | src/main/kotlin/io/github/eliahburns/channel/PartitionedMultiChannel.kt:55-58 | closed: throws; otherwise answers whether there was room, appending the element exactly when there was |
| Channels.Channel.Poll | src/test/kotlin/io/github/eliahburns/channel/ArrayMultiChannelTest.kt:34-38 | removes and returns the oldest element; on an empty buffer answers null, or throws the close cause when the channel was closed with one; closing state unchanged |
| Channels.Channel.Close | src/main/kotlin/io/github/eliahburns/partition/PartitionedChannel.kt:55 | closes for send, answers true iff this call closed it, keeps an earlier cause, never drops buffered elements |
| Policies.TruncRem | src/main/kotlin/io/github/eliahburns/partition/PartitionPolicy.kt:14 | the JVM `Long` remainder: smaller in magnitude than the divisor, with the sign of the dividend (with `TruncRemCongruent` this fixes the value) |
| Policies.TruncRemCongruent | src/main/kotlin/io/github/eliahburns/partition/PartitionPolicy.kt:14 | the remainder differs from the dividend by a multiple of the divisor |
| Policies.RoundRobinIndex | src/main/kotlin/io/github/eliahburns/partition/PartitionPolicy.kt:14 | `abs(count % n)` lies in `[0, abs(n))` and equals `count mod n` for `n > 0` and `count >= 0` |
| Policies.RoundRobinPartitionPolicy.constructor | src/main/kotlin/io/github/eliahburns/partition/PartitionPolicy.kt:10-13 | the counter starts at 0 |
| Policies.RoundRobinPartitionPolicy.Invoke | src/main/kotlin/io/github/eliahburns/partition/PartitionPolicy.kt:14 | increments the counter by exactly one; the index is in `[0, abs(n))`, depends only on the new counter and not on the element |
| Policies.PartitionPolicy.Plan | src/main/kotlin/io/github/eliahburns/partition/PartitionPolicy.kt:7-15 | the indices of the next calls: the key function of each element, or the round-robin indices for counters `count+1, count+2, ...` |
| Policies.PartitionPolicy.Apply | src/main/kotlin/io/github/eliahburns/partition/PartitionPolicy.kt:7 | one policy call returns the index `Next` predicted and advances a round-robin counter by one |
| Policies.Selections | src/main/kotlin/io/github/eliahburns/partition/PartitionPolicy.kt:13-14 | `m` successive round-robin calls return the indices for counters `count+1, ..., count+m` |
| Policies.RoundIsRotation | src/main/kotlin/io/github/eliahburns/partition/PartitionPolicy.kt:14 | `n` successive calls visit `0, ..., n-1` rotated to start at `(count+1) mod n` |
| Policies.OneRoundVisitsEachOnce | src/main/kotlin/io/github/eliahburns/partition/PartitionPolicy.kt:9-14 | any `n` successive calls return every index in `[0, n)` exactly once |
| Policies.EvenOverRounds | src/main/kotlin/io/github/eliahburns/partition/PartitionPolicy.kt:9-14 | `k` rounds of `n` successive calls return every index exactly `k` times |
| Policies.RoundsAreEven | src/main/kotlin/io/github/eliahburns/partition/PartitionPolicy.kt:9-14 | `n * k` successive calls return every index exactly `k` times |
| Policies.FromStartSelectsSuccessor | src/main/kotlin/io/github/eliahburns/partition/PartitionPolicy.kt:13-14 | from a fresh policy the j-th call (from 0) returns `(j+1) mod n`, so the first returns `1 mod n` |
| Policies.SinglePartitionAlwaysZero | src/main/kotlin/io/github/eliahburns/partition/PartitionedChannel.kt:39-44 | with the default single partition every round-robin call returns 0 |
| PartitionMap.TryAction | src/main/kotlin/io/github/eliahburns/partition/PartitionMap.kt:16-27 | a returned value becomes `Right(value)`; an `Exception` becomes `Left` holding the element and the cause, not rethrown; any other throwable escapes; it completes normally iff the action returned or threw an `Exception` (the intended behaviour, also for a null element: see Findings) |
| PartitionMap.TryActionAsWritten | src/main/kotlin/io/github/eliahburns/partition/PartitionMap.kt:16-27 | as written, on a nullable element: agrees with `TryAction` on every non-null element and on every outcome other than a caught `Exception`; a null element whose action threw an `Exception` ends in `TypeCastException` from the cast |
| PartitionMap.NullElementCastEscapes | src/main/kotlin/io/github/eliahburns/partition/PartitionMap.kt:22-25 | a null element whose action throws an `Exception`: the intended outcome is `Left` with the null element, but as written `TypeCastException` escapes |
| PartitionMap.RunWorker | src/main/kotlin/io/github/eliahburns/partition/channel/PartitionChannel.kt:64-67 | the worker loop emits, in order, exactly what `Work` predicts for the partition's elements (over the corrected `TryAction`; see Findings) |
| PartitionMap.WorkIsOneOutcomePerElement | src/main/kotlin/io/github/eliahburns/partition/channel/PartitionChannel.kt:64-67 | when nothing escapes `tryAction`, exactly one outcome per element, in order, each equal to that element's `tryAction`, `Left` iff its action threw: a failure does not stop later elements (over the corrected `TryAction`; see Findings) |
| PartitionMap.WorkStopsAtFirstEscape | src/main/kotlin/io/github/eliahburns/partition/channel/PartitionChannel.kt:64-67 | a throwable that is not an `Exception` ends the worker after the outcomes of exactly the elements before it (over the corrected `TryAction`; see Findings) |
| PartitionMap.FailureIsolationExample | src/main/kotlin/io/github/eliahburns/partition/PartitionMap.kt:20-26 | on `1, 2, 3` with 2 failing: `Right(1)`, the failure of 2 with its cause, `Right(3)` |
| PartitionedChannels.Route | src/main/kotlin/io/github/eliahburns/partition/PartitionedChannel.kt:60 | the chosen queue gains the element at its tail and every other queue is unchanged |
| PartitionedChannels.PickedCount | src/main/kotlin/io/github/eliahburns/partition/PartitionedChannel.kt:57-60 | queue `i` receives as many elements as there are indices equal to `i` |
| PartitionedChannels.RouteFirstCounts | src/main/kotlin/io/github/eliahburns/partition/PartitionedChannel.kt:57-60 | after routing the first `k` elements, queue `i` has grown by the number of those indices equal to `i`, so by at most `k` |
| PartitionedChannels.RoundRobinRoutesEvenly | src/main/kotlin/io/github/eliahburns/partition/PartitionPolicy.kt:9-14 | `n * k` elements routed round-robin over `n` queues are all in range and add exactly `k` elements to each queue |
| PartitionedChannels.RouteFirstPerQueue | src/main/kotlin/io/github/eliahburns/partition/PartitionedChannel.kt:23-26 | after routing elements in turn, queue `i` holds what it held followed by exactly the elements whose index was `i`, in submission order |
| PartitionedChannels.NewChannels | src/main/kotlin/io/github/eliahburns/partition/PartitionedChannel.kt:47 | `partitions` distinct new channels, empty, open, all of capacity `capacity` |
| PartitionedChannels.PartitionedChannel.constructor | src/main/kotlin/io/github/eliahburns/partition/PartitionedChannel.kt:38-47 | exactly `partitions` empty open queues of the same capacity; count, capacity and channel identities are constants |
| PartitionedChannels.PartitionedChannel.WithRoundRobin | src/main/kotlin/io/github/eliahburns/partition/PartitionedChannel.kt:39-44 | the default policy is a fresh round-robin policy over `partitions` with counter 0 |
| PartitionedChannels.PartitionedChannel.Send | src/main/kotlin/io/github/eliahburns/partition/PartitionedChannel.kt:57-60 | the policy is called once; an out-of-range index throws `IndexOutOfBoundsException` with that index (never clamped); a closed target throws its send exception; a full target leaves everything unchanged; otherwise only the chosen queue changes, by appending the element |
| PartitionedChannels.PartitionedChannel.CloseWith | src/main/kotlin/io/github/eliahburns/partition/PartitionedChannel.kt:55 | every queue ends closed, none skipped; the answer is true iff every individual close answered true, that is, iff none was closed before; earlier causes are kept |
| PartitionedChannels.PartitionedChannel.Close | src/main/kotlin/io/github/eliahburns/partition/PartitionedChannel.kt:50-52 | `close(null)`: every queue closed, newly closed ones without a cause |
| PartitionedChannels.PartitionedChannel.Iterator | src/main/kotlin/io/github/eliahburns/partition/PartitionedChannel.kt:62 | the channels in index order, the i-th holding queue `i` |
| PartitionedChannels.PartitionedChannel.SendNext | src/main/kotlin/io/github/eliahburns/partition/channel/PartitionChannel.kt:47-51 | one round of the dispatch loop: delivered, the routing of the elements sent so far grows by this element; refused, nothing is buffered and the refusal has its reason; the round-robin counter advances either way |
| PartitionedChannels.PartitionedChannel.SendAll | src/main/kotlin/io/github/eliahburns/partition/channel/PartitionChannel.kt:47-51 | a single producer's sends land as the policy planned them, so each queue receives its elements in submission order and grows by the number planned for it; the last outcome is `Delivered` iff all were sent; a stop is an out-of-range `IndexOutOfBoundsException`, the closed target's exception, or a full target; every call, the refused one included, advances the round-robin counter; closed flags and causes are unchanged; with every index in range and every queue open with room, all elements are sent |
| PartitionedChannelExamples.RoundRobinNineOverThree | src/main/kotlin/io/github/eliahburns/partition/PartitionPolicy.kt:13-14 | `0, ..., 8` round-robin over three partitions gives `[2,5,8]`, `[0,3,6]`, `[1,4,7]` |
| ArrayMultiChannels.ArrayMultiChannel.constructor | src/main/kotlin/io/github/eliahburns/channel/ArrayMultiChannel.kt:11-20 | every slot `0 until capacity` holds its own non-null, empty, open channel of buffer `capacityPerChannel` |
| ArrayMultiChannels.ArrayMultiChannel.Get | src/main/kotlin/io/github/eliahburns/channel/ArrayMultiChannel.kt:22-25 | succeeds iff `0 <= id < capacity`, with the channel of slot `id`; otherwise `IllegalStateException("channel id out of range")`; reads only |
| ArrayMultiChannels.ArrayMultiChannel.Close | src/main/kotlin/io/github/eliahburns/channel/ArrayMultiChannel.kt:27-29 | every channel ends closed, newly closed ones without a cause, buffers kept, slots unchanged |
| ArrayMultiChannels.SendThenPollEach | src/test/kotlin/io/github/eliahburns/channel/ArrayMultiChannelTest.kt:22-41 | `n` channels of buffer `m`, sent `0, ..., m-1` interleaved, each give back `0, ..., m-1` in order |
| PartitionedMultiChannels.RoundRobinPartitionPolicy.constructor | src/main/kotlin/io/github/eliahburns/channel/PartitionedMultiChannel.kt:105-108 | the counter starts at 0 |
| PartitionedMultiChannels.RoundRobinPartitionPolicy.Invoke | src/main/kotlin/io/github/eliahburns/channel/PartitionedMultiChannel.kt:109 | increments the counter by one and returns its truncating remainder, which lies in `[0, abs(n))` and equals the `abs` variant's index |
| PartitionedMultiChannels.NoAbsAgreesForPositiveCount | src/main/kotlin/io/github/eliahburns/channel/PartitionedMultiChannel.kt:109 | without `abs` the index agrees with the `abs` variant for a non-negative counter and for a negative one would be non-positive, negative unless `numPartitions` divides the counter |
| PartitionedMultiChannels.PartitionPolicy.Apply | src/main/kotlin/io/github/eliahburns/channel/PartitionedMultiChannel.kt:102 | one sorter call returns the index `Next` predicted and advances a round-robin counter by one |
| PartitionedMultiChannels.SinglePartitionSorterPicksZero | src/main/kotlin/io/github/eliahburns/channel/PartitionedMultiChannel.kt:34-37 | with one partition the round-robin sorter picks partition 0 for every element |
| PartitionedMultiChannels.PartitionedMultiChannel.constructor | src/main/kotlin/io/github/eliahburns/channel/PartitionedMultiChannel.kt:34-40 | `totalPartitions` empty open channels of buffer `partitionCapacity` |
| PartitionedMultiChannels.PartitionedMultiChannel.WithRoundRobin | src/main/kotlin/io/github/eliahburns/channel/PartitionedMultiChannel.kt:34-40 | the default sorter is a fresh round-robin policy over `totalPartitions` |
| PartitionedMultiChannels.PartitionedMultiChannel.Default | src/main/kotlin/io/github/eliahburns/channel/PartitionedMultiChannel.kt:34-37 | all defaults: one partition of capacity 0 with round-robin sorting |
| PartitionedMultiChannels.PartitionedMultiChannel.Offer | src/main/kotlin/io/github/eliahburns/channel/PartitionedMultiChannel.kt:55-58 | out-of-range index: `IllegalStateException`; closed target: throws; full target: false, nothing changes; otherwise true and only the chosen queue gains the element |
| PartitionedMultiChannels.PartitionedMultiChannel.Send | src/main/kotlin/io/github/eliahburns/channel/PartitionedMultiChannel.kt:64-67 | as `Offer`, but a full target makes the caller wait; only the chosen queue can change |
| PartitionedMultiChannels.PartitionedMultiChannel.IsClosedForSend | src/main/kotlin/io/github/eliahburns/channel/PartitionedMultiChannel.kt:61 | true iff every partition is closed for send |
| PartitionedMultiChannels.PartitionedMultiChannel.CloseWith | src/main/kotlin/io/github/eliahburns/channel/PartitionedMultiChannel.kt:48 | every partition ends closed (`isClosedForSend`); the answer is the conjunction of the individual answers, true iff none was closed before |
| PartitionedMultiChannels.PartitionedMultiChannel.Close | src/main/kotlin/io/github/eliahburns/channel/PartitionedMultiChannel.kt:43-45 | `close(null)`: every partition closed |
| PartitionedMultiChannels.PartitionedMultiChannel.Iterator | src/main/kotlin/io/github/eliahburns/channel/PartitionedMultiChannel.kt:69 | the partition channels in index order, the i-th holding queue `i` |
| PartitionedMultiChannels.MapAndMergeStep | src/main/kotlin/io/github/eliahburns/channel/PartitionedMultiChannel.kt:90-94 | `Success(map(e))`, or `Failure(e, exception)` with the original element for an `Exception`; other throwables escape |
| PartitionedMultiChannels.MapAndMergeStepIsTryAction | src/main/kotlin/io/github/eliahburns/channel/PartitionedMultiChannel.kt:90-94 | the step agrees with the intended `tryAction` outcome for outcome: same value, same element and cause (a null element included, since `Failure` has no cast), same escaping throwables |

## Left out

- Coroutine plumbing is not modelled: `produce`/`launch`/`awaitClose`, both `merge` functions in `ArrayMultiChannel.kt`, the fan-in of `mapAndMergePartitions`, and all of `PartitionFlow.kt` and `PartitionChannel.kt`. Its cross-partition interleaving depends on scheduling. The per-partition worker loop and the dispatch loop are modelled sequentially (`RunWorker`, `SendAll`).
- Channels.Channel.Send: a full or rendezvous (capacity 0) buffer reports `Suspended` and changes nothing. A real send waits for a receiver, and a rendezvous handoff needs a concurrent receiver.
- PartitionedChannels.PartitionedChannel.SendAll: stops at the first send that does not deliver. The source's loop would wait on a full partition, or end with the exception on a closed one.
- kotlinx `Channel` internals are not modelled: `receive` and iteration over a channel (with their own handling of the close cause). Only `poll` is modelled on the receive side.
- Channels.Channel.constructor: the capacity is a `nat` and always means a bounded buffer of that size. kotlinx also accepts `CONFLATED` (-1) and `BUFFERED` (-2), and `UNLIMITED` is `Int.MAX_VALUE`. These buffer kinds are not modelled; any other negative capacity makes the source throw.
- PartitionedChannels.PartitionedChannel.constructor: `partitions` is a `nat`. A negative count makes `List(partitions)` throw in the source.
- ArrayMultiChannels.ArrayMultiChannel.constructor: `capacity` is a `nat`. A negative one makes `arrayOfNulls` throw in the source.
- Policies.RoundRobinPartitionPolicy.Invoke: requires `numPartitions != 0`. The source throws `ArithmeticException` on the division instead.
- PartitionedMultiChannels.RoundRobinPartitionPolicy.Invoke: requires `numPartitions != 0` for the same reason.
- The counter's `AtomicLong` atomicity and its overflow at 2^63 are not modelled. The counter is a plain unbounded field.
- Policies.PartitionPolicy: a policy is either a pure keyed function or a round-robin object. An arbitrary stateful user lambda, or one that throws, is not modelled.
- PartitionedMultiChannels.PartitionPolicy: the same restriction applies to the sorter.
- `invokeOnClose` (`PartitionedMultiChannel.kt:50-53`) is not modelled. It depends on kotlinx handler-registration rules.
- Coroutine contexts and dispatchers (`CoroutineContext`, `Dispatchers.IO`, `CoroutineScope` delegation) are not modelled.
- `Closeable.use` and the soak-test drivers under `src/test` are not modelled.
- `MapAndMergeResult.Failure` names its element field `element`. The source calls it `value`, and a Dafny datatype cannot give two fields of different types the same name.

## Findings

| source | as written | input that shows it | evidently intended | confidence | as-written member | corrected member |
|---|---|---|---|---|---|---|
| src/main/kotlin/io/github/eliahburns/partition/PartitionMap.kt:24 | the `catch` block builds `MapActionException(element = element as Any, …)`; for a null element the cast throws `TypeCastException`, which escapes `tryAction` and ends the partition's worker | a `null` element whose action throws any `Exception` | the failure is caught per element and kept with its (null) element, as `MapAndMergeResult.Failure(element, e)` does at `PartitionedMultiChannel.kt:93` | high, not executed | PartitionMap.TryActionAsWritten, PartitionMap.NullElementCastEscapes | PartitionMap.TryAction |
