/** `io.github.eliahburns.partition.PartitionedChannel`: a fixed list of
    channels, one per partition, and a `send` that asks the policy for an
    index and sends the element to the channel at that index. */
module PartitionedChannels {
  import opened Lang
  import opened Channels
  import opened Policies

  /** The queues after `element` has been appended to queue `index`. */
  function Route<E>(queues: seq<seq<E>>, index: int, element: E): (r: seq<seq<E>>)
    requires 0 <= index < |queues|
    ensures |r| == |queues| && r[index] == queues[index] + [element]
    ensures forall i :: 0 <= i < |queues| && i != index ==> r[i] == queues[i]
  {
    queues[index := queues[index] + [element]]
  }

  /** The first `k` indices lie in `[0, n)`. */
  predicate InRangeUpTo(indices: seq<int>, k: nat, n: int)
    requires k <= |indices|
  {
    forall j :: 0 <= j < k ==> 0 <= indices[j] < n
  }

  /** The queues after appending `elements[0]`, ..., `elements[k-1]` in
      turn, each to the queue its index names. */
  function RouteFirst<E>(queues: seq<seq<E>>, indices: seq<int>, elements: seq<E>, k: nat): (r: seq<seq<E>>)
    requires |indices| == |elements| && k <= |elements| && InRangeUpTo(indices, k, |queues|)
    ensures |r| == |queues|
  {
    if k == 0 then queues
    else Route(RouteFirst(queues, indices, elements, k - 1), indices[k - 1], elements[k - 1])
  }

  /** One more routing step: `routed` is what routing the first `k + 1`
      elements gives. */
  lemma RouteFirstStep<E>(queues: seq<seq<E>>, indices: seq<int>, elements: seq<E>, k: nat, routed: seq<seq<E>>)
    requires |indices| == |elements| && k < |elements| && InRangeUpTo(indices, k, |queues|)
    requires 0 <= indices[k] < |queues|
    requires routed == Route(RouteFirst(queues, indices, elements, k), indices[k], elements[k])
    ensures InRangeUpTo(indices, k + 1, |queues|)
    ensures routed == RouteFirst(queues, indices, elements, k + 1)
  {
  }

  /** The elements whose index is `i`, in their original order. */
  function Picked<E>(indices: seq<int>, elements: seq<E>, i: int): (r: seq<E>)
    requires |indices| == |elements|
    ensures |r| <= |elements|
  {
    if elements == [] then []
    else (if indices[0] == i then [elements[0]] else []) + Picked(indices[1..], elements[1..], i)
  }

  lemma {:induction false} PickedSnoc<E>(indices: seq<int>, elements: seq<E>, i: int)
    requires |indices| == |elements| > 0
    ensures var n := |elements| - 1;
            Picked(indices, elements, i)
            == Picked(indices[..n], elements[..n], i) + (if indices[n] == i then [elements[n]] else [])
  {
    var n := |elements| - 1;
    if n > 0 {
      PickedSnoc(indices[1..], elements[1..], i);
      assert indices[1..][..n - 1] == indices[..n][1..];
      assert elements[1..][..n - 1] == elements[..n][1..];
    } else {
      assert indices[..n] == [] && elements[..n] == [];
    }
  }

  /** The ordering contract of a single producer: after sending the first
      `k` elements one by one, queue `i` holds what it held before followed
      by exactly those of them whose index was `i`, in the order they were
      sent. */
  lemma {:induction false} RouteFirstPerQueue<E>(queues: seq<seq<E>>, indices: seq<int>, elements: seq<E>, k: nat, i: int)
    requires |indices| == |elements| && k <= |elements| && InRangeUpTo(indices, k, |queues|)
    requires 0 <= i < |queues|
    ensures RouteFirst(queues, indices, elements, k)[i] == queues[i] + Picked(indices[..k], elements[..k], i)
  {
    if k > 0 {
      RouteFirstPerQueue(queues, indices, elements, k - 1, i);
      PickedSnoc(indices[..k], elements[..k], i);
      assert indices[..k][..k - 1] == indices[..k - 1];
      assert elements[..k][..k - 1] == elements[..k - 1];
    } else {
      assert indices[..k] == [] && elements[..k] == [];
    }
  }

  /** Queue `i` receives as many of the elements as there are indices
      equal to `i`. */
  lemma {:induction false} PickedCount<E>(indices: seq<int>, elements: seq<E>, i: int)
    requires |indices| == |elements|
    ensures |Picked(indices, elements, i)| == multiset(indices)[i]
  {
    if elements != [] {
      PickedCount(indices[1..], elements[1..], i);
      assert indices == [indices[0]] + indices[1..];
    }
  }

  /** After routing the first `k` elements, queue `i` has grown by the
      number of the first `k` indices equal to `i`, hence by at most `k`. */
  lemma RouteFirstCounts<E>(queues: seq<seq<E>>, indices: seq<int>, elements: seq<E>, k: nat)
    requires |indices| == |elements| && k <= |elements| && InRangeUpTo(indices, k, |queues|)
    ensures forall i :: 0 <= i < |queues| ==>
              |RouteFirst(queues, indices, elements, k)[i]| == |queues[i]| + multiset(indices[..k])[i]
    ensures forall i :: 0 <= i < |queues| ==>
              |RouteFirst(queues, indices, elements, k)[i]| <= |queues[i]| + k
  {
    forall i | 0 <= i < |queues|
      ensures |RouteFirst(queues, indices, elements, k)[i]| == |queues[i]| + multiset(indices[..k])[i]
      ensures |RouteFirst(queues, indices, elements, k)[i]| <= |queues[i]| + k
    {
      RouteFirstPerQueue(queues, indices, elements, k, i);
      PickedCount(indices[..k], elements[..k], i);
    }
  }

  /** Round robin balances the partitions: `n * k` elements routed from a
      counter at `count >= 0` are all in range and add exactly `k` elements
      to each of the `n` queues. */
  lemma RoundRobinRoutesEvenly<E>(queues: seq<seq<E>>, count: int, elements: seq<E>, k: nat)
    requires |queues| > 0 && count >= 0 && |elements| == |queues| * k
    ensures InRangeUpTo(Selections(|queues|, count, |elements|), |elements|, |queues|)
    ensures forall i :: 0 <= i < |queues| ==>
              |RouteFirst(queues, Selections(|queues|, count, |elements|), elements, |elements|)[i]|
              == |queues[i]| + k
  {
    var plan := Selections(|queues|, count, |elements|);
    RoundsAreEven(|queues|, count, k);
    assert plan[..|elements|] == plan;
    RouteFirstCounts(queues, plan, elements, |elements|);
  }

  /** `List(partitions) { Channel<E>(capacity) }`: distinct new channels,
      all empty, open and of the same capacity. */
  method NewChannels<E>(partitions: nat, capacity: nat) returns (channels: seq<Channel<E>>)
    ensures |channels| == partitions
    ensures forall i :: 0 <= i < partitions ==> fresh(channels[i])
    ensures forall i, j :: 0 <= i < j < partitions ==> channels[i] != channels[j]
    ensures forall i :: 0 <= i < partitions ==>
              channels[i].Valid() && channels[i].capacity == capacity
              && channels[i].buffer == [] && !channels[i].closed
  {
    channels := [];
    for k := 0 to partitions
      invariant |channels| == k
      invariant forall i :: 0 <= i < k ==> fresh(channels[i])
      invariant forall i, j :: 0 <= i < j < k ==> channels[i] != channels[j]
      invariant forall i :: 0 <= i < k ==>
                  channels[i].Valid() && channels[i].capacity == capacity
                  && channels[i].buffer == [] && !channels[i].closed
    {
      var c := new Channel<E>(capacity);
      channels := channels + [c];
    }
  }

  /** Whether every boolean is true (`all { it }`). */
  predicate AllTrue(results: seq<bool>) {
    forall j :: 0 <= j < |results| ==> results[j]
  }

  class PartitionedChannel<E> {
    const partitions: nat
    const capacity: nat
    const policy: PartitionPolicy<E>
    const channels: seq<Channel<E>>

    /** The partition count never changes, index `i` always names the same
        channel, and no two partitions share a channel. */
    ghost predicate Valid()
      reads this, channels
    {
      && |channels| == partitions
      && (forall i, j :: 0 <= i < j < |channels| ==> channels[i] != channels[j])
      && (forall i :: 0 <= i < |channels| ==> channels[i].capacity == capacity && channels[i].Valid())
      && |queues| == |channels|
      && (forall i :: 0 <= i < |channels| ==> queues[i] == channels[i].buffer)
    }

    /** The contents of the partition queues, in index order: what the
        channels have buffered. */
    ghost var queues: seq<seq<E>>

    /** Construction makes exactly `partitions` empty, open channels of
        buffer size `capacity`. */
    constructor (partitions: nat, capacity: nat, policy: PartitionPolicy<E>)
      ensures Valid()
      ensures this.partitions == partitions && this.capacity == capacity && this.policy == policy
      ensures forall i :: 0 <= i < partitions ==> fresh(channels[i]) && !channels[i].closed
      ensures queues == seq(partitions, _ => [])
    {
      var cs := NewChannels<E>(partitions, capacity);
      this.partitions := partitions;
      this.capacity := capacity;
      this.policy := policy;
      this.channels := cs;
      this.queues := seq(partitions, _ => []);
    }

    /** The default policy: a new `RoundRobinPartitionPolicy(partitions)`. */
    constructor WithRoundRobin(partitions: nat, capacity: nat)
      ensures Valid() && (policy.Callable() <==> partitions != 0)
      ensures this.partitions == partitions && this.capacity == capacity
      ensures policy.RoundRobin? && fresh(policy.rr)
      ensures policy.rr.numPartitions == partitions && policy.rr.count == 0
      ensures forall i :: 0 <= i < partitions ==> fresh(channels[i]) && !channels[i].closed
      ensures queues == seq(partitions, _ => [])
    {
      var cs := NewChannels<E>(partitions, capacity);
      var rr := new RoundRobinPartitionPolicy<E>(partitions);
      this.partitions := partitions;
      this.capacity := capacity;
      this.policy := RoundRobin(rr);
      this.channels := cs;
      this.queues := seq(partitions, _ => []);
    }

    /** `send(element)`: the policy is called once; an index outside
        `[0, partitions)` raises `IndexOutOfBoundsException`; otherwise the
        element goes to that channel's `send`, which fails if the channel is
        closed, would suspend if it is full, and else appends the element.
        Only the chosen queue can change. */
    method Send(element: E) returns (r: SendOutcome)
      requires Valid() && policy.Callable()
      modifies this, channels, policy.Frame()
      ensures Valid() && policy.Callable()
      ensures policy.RoundRobin? ==> policy.rr.count == old(policy.rr.count) + 1
      ensures forall i :: 0 <= i < partitions ==>
                channels[i].closed == old(channels[i].closed)
                && channels[i].closeCause == old(channels[i].closeCause)
      ensures r == Delivered ==>
                0 <= old(policy.Next(element)) < partitions
                && queues == Route(old(queues), old(policy.Next(element)), element)
      ensures r != Delivered ==> queues == old(queues)
      ensures var index := old(policy.Next(element));
              && (!(0 <= index < partitions) ==> r == Raised(IndexOutOfBoundsException(index)))
              && (0 <= index < partitions && old(channels[index].closed) ==>
                    r == Raised(old(channels[index].SendException())))
              && (0 <= index < partitions && !old(channels[index].closed) ==>
                    (r == Delivered <==> |old(queues)[index]| < capacity)
                    && (r != Delivered ==> r == Suspended))
    {
      var index := policy.Apply(element);
      if !(0 <= index < partitions) {
        r := Raised(IndexOutOfBoundsException(index));
        return;
      }
      r := channels[index].Send(element);
      queues := queues[index := channels[index].buffer];
    }

    /** `close(cause)`: every channel is closed (the `map` is eager, so a
        channel that was already closed does not stop the others), and the
        answer is true iff every individual close answered true, that is,
        iff no channel had been closed before. */
    method CloseWith(cause: Option<Throwable>) returns (allClosedNow: bool)
      requires Valid()
      modifies channels
      ensures Valid() && queues == old(queues)
      ensures forall i :: 0 <= i < partitions ==>
                channels[i].closed
                && channels[i].closeCause == if old(channels[i].closed) then old(channels[i].closeCause) else cause
      ensures allClosedNow <==> forall i :: 0 <= i < partitions ==> !old(channels[i].closed)
    {
      var results: seq<bool> := [];
      for k := 0 to |channels|
        invariant Valid()
        invariant |results| == k
        invariant forall j :: 0 <= j < |channels| ==> channels[j].buffer == old(channels[j].buffer)
        invariant forall j :: 0 <= j < k ==>
                    results[j] == !old(channels[j].closed) && channels[j].closed
                    && channels[j].closeCause == if old(channels[j].closed) then old(channels[j].closeCause) else cause
        invariant forall j :: k <= j < |channels| ==>
                    channels[j].closed == old(channels[j].closed) && channels[j].closeCause == old(channels[j].closeCause)
      {
        var ok := channels[k].Close(cause);
        results := results + [ok];
      }
      allClosedNow := AllTrue(results);
    }

    /** `close()`: `close(null)`, its answer ignored. */
    method Close()
      requires Valid()
      modifies channels
      ensures Valid() && queues == old(queues)
      ensures forall i :: 0 <= i < partitions ==>
                channels[i].closed
                && channels[i].closeCause == if old(channels[i].closed) then old(channels[i].closeCause) else None
    {
      var _ := CloseWith(None);
    }

    /** `iterator()`: the partition channels in index order; the i-th one is
        the channel `send` fills when the policy picks `i`. */
    function Iterator(): (s: seq<Channel<E>>)
      requires Valid()
      reads this, channels
      ensures |s| == partitions && forall i :: 0 <= i < partitions ==> s[i].buffer == queues[i]
      ensures forall i :: 0 <= i < partitions ==> s[i] == channels[i]
    {
      channels
    }

    /** Why a `send` of an element the policy sent to `index` did not
        deliver: the index is out of range, or that channel is closed, or
        it is open and full (the send would suspend). */
    ghost predicate Refused(index: int, r: SendOutcome)
      requires Valid()
      reads this, channels
    {
      if !(0 <= index < partitions) then r == Raised(IndexOutOfBoundsException(index))
      else if channels[index].closed then r == Raised(channels[index].SendException())
      else r == Suspended && |queues[index]| == capacity
    }

    /** One round of `SendAll`: sends `elements[sent]`, which the policy
        sends to `plan[sent]`, and answers how many elements have been sent
        after it. Delivered, the routing of the first `sent` elements
        extends by one; otherwise nothing is buffered and the refusal has
        its reason. */
    method SendNext(elements: seq<E>, sent: nat, ghost plan: seq<int>, ghost queues0: seq<seq<E>>)
      returns (r: SendOutcome, sentNow: nat)
      requires Valid() && policy.Callable()
      requires sent < |elements| == |plan| && |queues0| == partitions
      requires policy.Next(elements[sent]) == plan[sent]
      requires InRangeUpTo(plan, sent, partitions) && queues == RouteFirst(queues0, plan, elements, sent)
      modifies this, channels, policy.Frame()
      ensures Valid() && policy.Callable()
      ensures policy.RoundRobin? ==> policy.rr.count == old(policy.rr.count) + 1
      ensures forall i :: 0 <= i < partitions ==>
                channels[i].closed == old(channels[i].closed)
                && channels[i].closeCause == old(channels[i].closeCause)
      ensures sentNow == if r == Delivered then sent + 1 else sent
      ensures InRangeUpTo(plan, sentNow, partitions) && queues == RouteFirst(queues0, plan, elements, sentNow)
      ensures r != Delivered ==> Refused(plan[sent], r)
    {
      r := Send(elements[sent]);
      sentNow := sent;
      if r == Delivered {
        RouteFirstStep(queues0, plan, elements, sent, queues);
        sentNow := sent + 1;
      }
    }

    /** A single producer sending `elements` one after another, stopping at
        the first `send` that does not deliver (the dispatching loop of
        `asPartitionedChannel`). The first `sent` elements are routed as the
        policy planned them, so each queue receives its elements in the
        order they were sent and grows by the number of them planned for
        it; a stop has the reason `Refused` gives for the next planned
        index; every call, the refused one included, advances a round-robin
        counter; closing state is untouched; and when every planned index
        is in range and every channel is open with room for all of them,
        all are sent. */
    method SendAll(elements: seq<E>) returns (sent: nat, last: SendOutcome)
      requires Valid() && policy.Callable()
      modifies this, channels, policy.Frame()
      ensures Valid() && policy.Callable()
      ensures sent <= |elements|
      ensures last == Delivered <==> sent == |elements|
      ensures policy.RoundRobin? ==>
                policy.rr.count == old(policy.rr.count) + (if last == Delivered then sent else sent + 1)
      ensures forall i :: 0 <= i < partitions ==>
                channels[i].closed == old(channels[i].closed)
                && channels[i].closeCause == old(channels[i].closeCause)
      ensures var plan := old(policy.Plan(elements));
              && InRangeUpTo(plan, sent, partitions)
              && queues == RouteFirst(old(queues), plan, elements, sent)
              && (forall i :: 0 <= i < partitions ==> |queues[i]| == |old(queues[i])| + multiset(plan[..sent])[i])
              && (sent < |elements| ==> Refused(plan[sent], last))
      ensures (&& InRangeUpTo(old(policy.Plan(elements)), |elements|, partitions)
               && (forall i :: 0 <= i < partitions ==>
                     !old(channels[i].closed) && |old(queues[i])| + |elements| <= capacity))
              ==> sent == |elements|
    {
      ghost var plan := policy.Plan(elements);
      ghost var queues0 := queues;
      ghost var count0 := if policy.RoundRobin? then policy.rr.count else 0;
      sent, last := 0, Delivered;
      while sent < |elements|
        invariant Valid() && policy.Callable()
        invariant sent <= |elements| && last == Delivered
        invariant policy.RoundRobin? ==> policy.rr.count == count0 + sent
        invariant InRangeUpTo(plan, sent, partitions) && queues == RouteFirst(queues0, plan, elements, sent)
        invariant forall i :: 0 <= i < partitions ==>
                    channels[i].closed == old(channels[i].closed)
                    && channels[i].closeCause == old(channels[i].closeCause)
      {
        assert policy.Next(elements[sent]) == plan[sent];
        last, sent := SendNext(elements, sent, plan, queues0);
        if last != Delivered {
          break;
        }
      }
      RouteFirstCounts(queues0, plan, elements, sent);
    }
  }
}

module PartitionedChannelExamples {
  import opened PartitionedChannels
  import Policies

  const NinePlan: seq<int> := [1, 2, 0, 1, 2, 0, 1, 2, 0]
  const NineElements: seq<int> := [0, 1, 2, 3, 4, 5, 6, 7, 8]

  /** Routing steps 1 to 3 of the example below. */
  lemma NineOverThreeSteps1To3()
    requires InRangeUpTo(NinePlan, 9, 3)
    requires RouteFirst([[], [], []], NinePlan, NineElements, 0) == [[], [], []]
    ensures RouteFirst([[], [], []], NinePlan, NineElements, 3) == [[2], [0], [1]]
  {
    assert [] + [0] == [0];
    assert RouteFirst([[], [], []], NinePlan, NineElements, 1) == [[], [0], []];
    assert [] + [1] == [1];
    assert RouteFirst([[], [], []], NinePlan, NineElements, 2) == [[], [0], [1]];
    assert [] + [2] == [2];
  }

  /** Routing steps 4 to 6 of the example below. */
  lemma NineOverThreeSteps4To6()
    requires InRangeUpTo(NinePlan, 9, 3)
    requires RouteFirst([[], [], []], NinePlan, NineElements, 3) == [[2], [0], [1]]
    ensures RouteFirst([[], [], []], NinePlan, NineElements, 6) == [[2, 5], [0, 3], [1, 4]]
  {
    assert [0] + [3] == [0, 3];
    assert RouteFirst([[], [], []], NinePlan, NineElements, 4) == [[2], [0, 3], [1]];
    assert [1] + [4] == [1, 4];
    assert RouteFirst([[], [], []], NinePlan, NineElements, 5) == [[2], [0, 3], [1, 4]];
    assert [2] + [5] == [2, 5];
  }

  /** Routing steps 7 to 9 of the example below. */
  lemma NineOverThreeSteps7To9()
    requires InRangeUpTo(NinePlan, 9, 3)
    requires RouteFirst([[], [], []], NinePlan, NineElements, 6) == [[2, 5], [0, 3], [1, 4]]
    ensures RouteFirst([[], [], []], NinePlan, NineElements, 9) == [[2, 5, 8], [0, 3, 6], [1, 4, 7]]
  {
    assert [0, 3] + [6] == [0, 3, 6];
    assert RouteFirst([[], [], []], NinePlan, NineElements, 7) == [[2, 5], [0, 3, 6], [1, 4]];
    assert [1, 4] + [7] == [1, 4, 7];
    assert RouteFirst([[], [], []], NinePlan, NineElements, 8) == [[2, 5], [0, 3, 6], [1, 4, 7]];
    assert [2, 5] + [8] == [2, 5, 8];
  }

  /** A fresh round-robin policy over three partitions, fed `0, ..., 8`:
      since the first call picks partition 1, partition 1 receives
      `0, 3, 6`, partition 2 receives `1, 4, 7` and partition 0 receives
      `2, 5, 8`, each in the order sent. */
  lemma RoundRobinNineOverThree()
    ensures var plan := Policies.Selections(3, 0, 9);
            InRangeUpTo(plan, 9, 3)
            && RouteFirst([[], [], []], plan, Policies.Range(9), 9) == [[2, 5, 8], [0, 3, 6], [1, 4, 7]]
  {
    assert Policies.Selections(3, 0, 9) == NinePlan;
    assert Policies.Range(9) == NineElements;
    NineOverThreeSteps1To3();
    NineOverThreeSteps4To6();
    NineOverThreeSteps7To9();
  }
}
