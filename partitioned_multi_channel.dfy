/** `io.github.eliahburns.channel.PartitionedMultiChannel`: the partitions
    held in an `ArrayMultiChannel`, a sorter that picks the partition of
    each element, `offer`/`send`/`close` over the chosen or all partitions,
    and the per-element step of `mapAndMergePartitions`. This package keeps
    its own copy of the round-robin policy, one without `abs`. */
module PartitionedMultiChannels {
  import opened Lang
  import opened Channels
  import opened ArrayMultiChannels
  import Policies
  import PartitionedChannels
  import PartitionMap

  /** `DEFAULT_TOTAL_GROUPS`. */
  const DefaultTotalGroups: nat := 1

  /** `RoundRobinPartitionPolicy` of this package: the counter starts at 0
      and each call returns the incremented counter `% numPartitions`, with
      the JVM's truncating remainder and no `abs`. */
  class RoundRobinPartitionPolicy<E> {
    const numPartitions: int
    var count: int

    /** The counter only ever grows from 0. */
    ghost predicate Valid()
      reads this
    {
      count >= 0
    }

    constructor (numPartitions: int)
      ensures Valid() && this.numPartitions == numPartitions && count == 0
    {
      this.numPartitions := numPartitions;
      count := 0;
    }

    /** `invoke(e)`: `incrementAndGet() % numPartitions`. The counter being
        positive, the remainder is never negative, so the index lies in
        `[0, |numPartitions|)` and equals the one the `abs` variant gives. */
    method Invoke(e: E) returns (index: int)
      requires Valid() && numPartitions != 0
      modifies this
      ensures Valid() && count == old(count) + 1
      ensures index == Policies.TruncRem(count, numPartitions)
      ensures 0 <= index < Policies.Abs(numPartitions)
      ensures index == Policies.RoundRobinIndex(numPartitions, count)
    {
      count := count + 1;
      index := Policies.TruncRem(count, numPartitions);
    }
  }

  /** For a positive counter the remainder without `abs` is the index the
      `abs` variant returns; for a negative counter it would be negative
      (the counter never gets there). */
  lemma NoAbsAgreesForPositiveCount(numPartitions: int, count: int)
    requires numPartitions != 0
    ensures count >= 0 ==> Policies.TruncRem(count, numPartitions) == Policies.RoundRobinIndex(numPartitions, count)
    ensures count < 0 && Policies.TruncRem(count, numPartitions) != 0 ==>
              Policies.TruncRem(count, numPartitions) < 0
  {
  }

  /** The sorter: a stateless keyed function or this package's
      round-robin object. */
  datatype PartitionPolicy<!E> =
    | Keyed(select: E -> int)
    | RoundRobin(rr: RoundRobinPartitionPolicy<E>)
  {
    function Frame(): set<object> {
      if RoundRobin? then {rr} else {}
    }

    /** Calls of the sorter do not divide by zero. */
    ghost predicate Callable()
      reads Frame()
    {
      RoundRobin? ==> rr.Valid() && rr.numPartitions != 0
    }

    /** The index the next call on `e` returns. */
    function Next(e: E): int
      requires Callable()
      reads Frame()
    {
      match this
      case Keyed(f) => f(e)
      case RoundRobin(p) => Policies.TruncRem(p.count + 1, p.numPartitions)
    }

    /** `sorter(e)`: one call of the sorter. */
    method Apply(e: E) returns (index: int)
      requires Callable()
      modifies Frame()
      ensures Callable()
      ensures index == old(Next(e))
      ensures RoundRobin? ==> rr.count == old(rr.count) + 1
    {
      match this
      case Keyed(f) =>
        index := f(e);
      case RoundRobin(p) =>
        index := p.Invoke(e);
    }
  }

  /** With a single partition the round-robin sorter always picks
      partition 0, whatever the element and the counter. */
  lemma SinglePartitionSorterPicksZero<E>(sorter: PartitionPolicy<E>, e: E)
    requires sorter.RoundRobin? && sorter.rr.numPartitions == 1 && sorter.Callable()
    ensures sorter.Next(e) == 0
  {
  }

  class PartitionedMultiChannel<E> {
    const totalPartitions: nat
    const partitionCapacity: nat
    const sorter: PartitionPolicy<E>
    const channels: ArrayMultiChannel<E>

    /** The contents of the partition queues, in index order. */
    ghost var queues: seq<seq<E>>

    /** One channel per partition, each with buffer `partitionCapacity`,
        and `queues` is what they hold. */
    ghost predicate Valid()
      reads this, channels, channels.channels, channels.slots
    {
      && channels.Valid()
      && channels.capacity == totalPartitions
      && channels.capacityPerChannel == partitionCapacity
      && |queues| == totalPartitions
      && (forall i :: 0 <= i < totalPartitions ==> queues[i] == channels.slots[i].buffer)
    }

    /** `PartitionedMultiChannel(totalPartitions, partitionCapacity,
        sorter)`: `totalPartitions` empty, open channels of buffer size
        `partitionCapacity`. */
    constructor (totalPartitions: nat, partitionCapacity: nat, sorter: PartitionPolicy<E>)
      ensures Valid()
      ensures this.totalPartitions == totalPartitions && this.partitionCapacity == partitionCapacity
      ensures this.sorter == sorter && fresh(channels)
      ensures forall i :: 0 <= i < totalPartitions ==> fresh(channels.slots[i]) && !channels.slots[i].closed
      ensures queues == seq(totalPartitions, _ => [])
    {
      var amc := new ArrayMultiChannel<E>(totalPartitions, partitionCapacity);
      this.totalPartitions := totalPartitions;
      this.partitionCapacity := partitionCapacity;
      this.sorter := sorter;
      this.channels := amc;
      this.queues := seq(totalPartitions, _ => []);
    }

    /** The default sorter: a new round-robin policy over
        `totalPartitions`. */
    constructor WithRoundRobin(totalPartitions: nat, partitionCapacity: nat)
      ensures Valid() && (sorter.Callable() <==> totalPartitions != 0)
      ensures this.totalPartitions == totalPartitions && this.partitionCapacity == partitionCapacity
      ensures sorter.RoundRobin? && fresh(sorter.rr)
      ensures sorter.rr.numPartitions == totalPartitions && sorter.rr.count == 0
      ensures fresh(channels)
      ensures forall i :: 0 <= i < totalPartitions ==> fresh(channels.slots[i]) && !channels.slots[i].closed
      ensures queues == seq(totalPartitions, _ => [])
    {
      var amc := new ArrayMultiChannel<E>(totalPartitions, partitionCapacity);
      var rr := new RoundRobinPartitionPolicy<E>(totalPartitions);
      this.totalPartitions := totalPartitions;
      this.partitionCapacity := partitionCapacity;
      this.sorter := RoundRobin(rr);
      this.channels := amc;
      this.queues := seq(totalPartitions, _ => []);
    }

    /** All defaults: `DEFAULT_TOTAL_GROUPS` (one) partition of rendezvous
        capacity (0) with round-robin sorting, so every element goes to
        partition 0. */
    constructor Default()
      ensures Valid() && sorter.Callable()
      ensures totalPartitions == DefaultTotalGroups && partitionCapacity == 0
      ensures sorter.RoundRobin? && fresh(sorter.rr)
      ensures sorter.rr.numPartitions == 1 && sorter.rr.count == 0
      ensures fresh(channels)
      ensures forall i :: 0 <= i < totalPartitions ==> fresh(channels.slots[i]) && !channels.slots[i].closed
      ensures queues == [[]]
    {
      var amc := new ArrayMultiChannel<E>(DefaultTotalGroups, 0);
      var rr := new RoundRobinPartitionPolicy<E>(DefaultTotalGroups);
      this.totalPartitions := DefaultTotalGroups;
      this.partitionCapacity := 0;
      this.sorter := RoundRobin(rr);
      this.channels := amc;
      this.queues := [[]];
    }

    /** `offer(element)`: the sorter is called once and `get` checks its
        index (`IllegalStateException` when out of range); a closed
        partition throws; a full one answers false and keeps its queue; and
        otherwise the element is appended and the answer is true. Only the
        chosen queue can change. */
    method Offer(element: E) returns (r: Completion<bool>)
      requires Valid() && sorter.Callable()
      modifies this, channels.slots, sorter.Frame()
      ensures Valid() && sorter.Callable()
      ensures sorter.RoundRobin? ==> sorter.rr.count == old(sorter.rr.count) + 1
      ensures forall i :: 0 <= i < totalPartitions ==>
                channels.slots[i].closed == old(channels.slots[i].closed)
                && channels.slots[i].closeCause == old(channels.slots[i].closeCause)
      ensures r == Normal(true) ==>
                0 <= old(sorter.Next(element)) < totalPartitions
                && queues == PartitionedChannels.Route(old(queues), old(sorter.Next(element)), element)
      ensures r != Normal(true) ==> queues == old(queues)
      ensures var index := old(sorter.Next(element));
              !(0 <= index < totalPartitions) ==> r == Thrown(IllegalStateException(OutOfRangeMessage))
      ensures var index := old(sorter.Next(element));
              0 <= index < totalPartitions && old(channels.slots[index].closed) ==>
                r == Thrown(old(channels.slots[index].SendException()))
      ensures var index := old(sorter.Next(element));
              0 <= index < totalPartitions && !old(channels.slots[index].closed) ==>
                r.Normal? && (r.value <==> |old(queues)[index]| < partitionCapacity)
    {
      var index := sorter.Apply(element);
      var target := channels.Get(index);
      if target.Thrown? {
        r := Thrown(target.thrown);
        return;
      }
      r := target.value.Offer(element);
      queues := queues[index := target.value.buffer];
    }

    /** `send(element)`: as `offer`, except that a full partition makes the
        caller wait (`Suspended`, nothing changes). */
    method Send(element: E) returns (r: SendOutcome)
      requires Valid() && sorter.Callable()
      modifies this, channels.slots, sorter.Frame()
      ensures Valid() && sorter.Callable()
      ensures sorter.RoundRobin? ==> sorter.rr.count == old(sorter.rr.count) + 1
      ensures forall i :: 0 <= i < totalPartitions ==>
                channels.slots[i].closed == old(channels.slots[i].closed)
                && channels.slots[i].closeCause == old(channels.slots[i].closeCause)
      ensures r == Delivered ==>
                0 <= old(sorter.Next(element)) < totalPartitions
                && queues == PartitionedChannels.Route(old(queues), old(sorter.Next(element)), element)
      ensures r != Delivered ==> queues == old(queues)
      ensures var index := old(sorter.Next(element));
              !(0 <= index < totalPartitions) ==> r == Raised(IllegalStateException(OutOfRangeMessage))
      ensures var index := old(sorter.Next(element));
              0 <= index < totalPartitions && old(channels.slots[index].closed) ==>
                r == Raised(old(channels.slots[index].SendException()))
      ensures var index := old(sorter.Next(element));
              0 <= index < totalPartitions && !old(channels.slots[index].closed) ==>
                (r == Delivered <==> |old(queues)[index]| < partitionCapacity)
                && (r != Delivered ==> r == Suspended)
    {
      var index := sorter.Apply(element);
      var target := channels.Get(index);
      if target.Thrown? {
        r := Raised(target.thrown);
        return;
      }
      r := target.value.Send(element);
      queues := queues[index := target.value.buffer];
    }

    /** `isClosedForSend`: whether every partition is closed for send
        (vacuously true with no partitions). */
    function IsClosedForSend(): (b: bool)
      requires Valid()
      reads this, channels, channels.channels, channels.slots
      ensures b <==> forall i :: 0 <= i < totalPartitions ==> channels.slots[i].closed
    {
      forall i :: 0 <= i < channels.channels.Length ==>
        channels.channels[i] != null && channels.channels[i].closed
    }

    /** `close(cause)`: every partition is closed (no short-circuit), and
        the answer is the conjunction of the individual answers, that is,
        whether no partition had been closed before. */
    method CloseWith(cause: Option<Throwable>) returns (allClosedNow: bool)
      requires Valid()
      modifies channels.slots
      ensures Valid() && queues == old(queues) && IsClosedForSend()
      ensures forall i :: 0 <= i < totalPartitions ==>
                channels.slots[i].closeCause
                == if old(channels.slots[i].closed) then old(channels.slots[i].closeCause) else cause
      ensures allClosedNow <==> forall i :: 0 <= i < totalPartitions ==> !old(channels.slots[i].closed)
    {
      var results: seq<bool> := [];
      for k := 0 to totalPartitions
        invariant Valid()
        invariant |results| == k
        invariant forall j :: 0 <= j < totalPartitions ==> channels.slots[j].buffer == old(channels.slots[j].buffer)
        invariant forall j :: 0 <= j < k ==>
                    results[j] == !old(channels.slots[j].closed) && channels.slots[j].closed
                    && channels.slots[j].closeCause
                       == if old(channels.slots[j].closed) then old(channels.slots[j].closeCause) else cause
        invariant forall j :: k <= j < totalPartitions ==>
                    channels.slots[j].closed == old(channels.slots[j].closed)
                    && channels.slots[j].closeCause == old(channels.slots[j].closeCause)
      {
        var ok := channels.channels[k].Close(cause);
        results := results + [ok];
      }
      allClosedNow := PartitionedChannels.AllTrue(results);
    }

    /** `close()`: `close(null)`. */
    method Close()
      requires Valid()
      modifies channels.slots
      ensures Valid() && queues == old(queues) && IsClosedForSend()
      ensures forall i :: 0 <= i < totalPartitions ==>
                channels.slots[i].closeCause
                == if old(channels.slots[i].closed) then old(channels.slots[i].closeCause) else None
    {
      var _ := CloseWith(None);
    }

    /** `iterator()`: the partition channels in index order. */
    function Iterator(): (s: seq<Channel?<E>>)
      requires Valid()
      reads this, channels, channels.channels, channels.slots
      ensures |s| == totalPartitions
      ensures forall i :: 0 <= i < totalPartitions ==> s[i] == channels.slots[i] && s[i].buffer == queues[i]
    {
      channels.channels[..]
    }
  }

  /** `MapAndMergeResult`: the mapped value, or the element whose mapping
      threw together with the exception. */
  datatype MapAndMergeResult<E, R> = Success(value: R) | Failure(element: E, cause: Throwable)

  /** The body of the loop in `mapAndMergePartitions`: `Success(map(e))`,
      or `Failure(e, exception)` when `map` throws an `Exception`; any
      other throwable escapes. */
  function MapAndMergeStep<E, R>(element: E, transform: E -> Completion<R>): (r: Completion<MapAndMergeResult<E, R>>)
    ensures transform(element).Normal? ==> r == Normal(Success(transform(element).value))
    ensures transform(element).Thrown? && transform(element).thrown.IsException() ==>
              r == Normal(Failure(element, transform(element).thrown))
    ensures transform(element).Thrown? && !transform(element).thrown.IsException() ==> r == Thrown(transform(element).thrown)
  {
    match transform(element)
    case Normal(v) => Normal(Success(v))
    case Thrown(t) => if t.IsException() then Normal(Failure(element, t)) else Thrown(t)
  }

  /** The `MapEither` outcome of `tryAction` read as a `MapAndMergeResult`. */
  function FromEither<E, R>(outcome: PartitionMap.MapEither<E, R>): (r: MapAndMergeResult<E, R>)
    ensures outcome.Right? <==> r.Success?
    ensures outcome.Right? ==> r.value == outcome.value
    ensures outcome.Left? ==> r.element == outcome.failure.element && r.cause == outcome.failure.cause
  {
    match outcome
    case Right(v) => Success(v)
    case Left(failure) => Failure(failure.element, failure.cause)
  }

  /** The step of `mapAndMergePartitions` is `tryAction` under another
      name: the same value, the same element and cause, and the same
      throwables escape. */
  lemma MapAndMergeStepIsTryAction<E, R>(element: E, transform: E -> Completion<R>)
    ensures MapAndMergeStep(element, transform).Normal? <==> PartitionMap.TryAction(element, transform).Normal?
    ensures MapAndMergeStep(element, transform).Normal? ==>
              MapAndMergeStep(element, transform).value == FromEither(PartitionMap.TryAction(element, transform).value)
    ensures MapAndMergeStep(element, transform).Thrown? ==>
              MapAndMergeStep(element, transform).thrown == PartitionMap.TryAction(element, transform).thrown
  {
  }
}
