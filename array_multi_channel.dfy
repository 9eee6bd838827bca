/** `io.github.eliahburns.channel.ArrayMultiChannel`: a fixed array of
    `capacity` channels, each with a buffer of `capacityPerChannel`
    elements, addressed by id. */
module ArrayMultiChannels {
  import opened Lang
  import opened Channels
  import Policies

  /** The message of the `check` in `get`. */
  const OutOfRangeMessage: string := "channel id out of range"

  class ArrayMultiChannel<E> {
    /** The number of channels. */
    const capacity: nat
    /** The buffer size of every channel. */
    const capacityPerChannel: nat
    /** `arrayOfNulls<Channel<E>?>(capacity)`, filled by `init`. */
    const channels: array<Channel?<E>>
    /** The channels `init` stored, slot by slot. */
    ghost const slots: seq<Channel<E>>

    /** Every slot holds its own channel, never null and never replaced,
        and every channel has the buffer size `capacityPerChannel`. */
    ghost predicate Valid()
      reads this, channels, slots
    {
      && channels.Length == capacity
      && |slots| == capacity
      && (forall i :: 0 <= i < capacity ==> channels[i] == slots[i])
      && (forall i, j :: 0 <= i < j < capacity ==> slots[i] != slots[j])
      && (forall i :: 0 <= i < capacity ==> slots[i].capacity == capacityPerChannel && slots[i].Valid())
    }

    /** The array starts as `capacity` nulls and `init` stores a new channel
        in every slot `0 until capacity`. */
    constructor (capacity: nat, capacityPerChannel: nat)
      ensures Valid()
      ensures this.capacity == capacity && this.capacityPerChannel == capacityPerChannel
      ensures fresh(channels)
      ensures forall i :: 0 <= i < capacity ==>
                fresh(slots[i]) && slots[i].buffer == [] && !slots[i].closed && slots[i].closeCause == None
    {
      var a := new Channel?<E>[capacity](_ => null);
      ghost var made: seq<Channel<E>> := [];
      for id := 0 to capacity
        invariant |made| == id
        invariant forall i :: 0 <= i < id ==> a[i] == made[i]
        invariant forall i, j :: 0 <= i < j < id ==> made[i] != made[j]
        invariant forall i :: 0 <= i < id ==>
                    fresh(made[i]) && made[i].capacity == capacityPerChannel && made[i].Valid()
                    && made[i].buffer == [] && !made[i].closed && made[i].closeCause == None
      {
        var c := new Channel<E>(capacityPerChannel);
        a[id] := c;
        made := made + [c];
      }
      this.capacity := capacity;
      this.capacityPerChannel := capacityPerChannel;
      this.channels := a;
      this.slots := made;
    }

    /** `get(id)`: the channel in slot `id` when `0 <= id < capacity`, and
        otherwise the `IllegalStateException` of the failed `check`. It
        reads the array and changes nothing, so the same id always gives
        the same channel. */
    function Get(id: int): (r: Completion<Channel<E>>)
      requires Valid()
      reads this, channels, slots
      ensures r.Normal? <==> 0 <= id < capacity
      ensures r.Normal? ==> r.value == slots[id]
      ensures r.Thrown? ==> r.thrown == IllegalStateException(OutOfRangeMessage)
    {
      if 0 <= id < capacity then
        var c: Channel<E> := channels[id];
        Normal(c)
      else
        Thrown(IllegalStateException(OutOfRangeMessage))
    }

    /** `close()`: closes every channel, in slot order, with no cause. A
        channel that was already closed keeps its cause; buffered elements
        stay. */
    method Close()
      requires Valid()
      modifies slots
      ensures Valid()
      ensures forall i :: 0 <= i < capacity ==>
                slots[i].closed && slots[i].buffer == old(slots[i].buffer)
                && slots[i].closeCause == if old(slots[i].closed) then old(slots[i].closeCause) else None
    {
      for id := 0 to capacity
        invariant Valid()
        invariant forall i :: 0 <= i < capacity ==> slots[i].buffer == old(slots[i].buffer)
        invariant forall i :: 0 <= i < id ==>
                    slots[i].closed
                    && slots[i].closeCause == if old(slots[i].closed) then old(slots[i].closeCause) else None
        invariant forall i :: id <= i < capacity ==>
                    slots[i].closed == old(slots[i].closed) && slots[i].closeCause == old(slots[i].closeCause)
      {
        var c := channels[id];
        if c != null {
          var _ := c.Close(None);
        }
      }
    }
  }

  /** Sends `e` to every channel of `amc`, in id order, when every channel
      holds `0, ..., e-1` and has room for one more. */
  method SendToEach(amc: ArrayMultiChannel<int>, e: nat)
    requires amc.Valid() && e < amc.capacityPerChannel
    requires forall i :: 0 <= i < amc.capacity ==> !amc.slots[i].closed && amc.slots[i].buffer == Policies.Range(e)
    modifies amc.slots
    ensures amc.Valid()
    ensures forall i :: 0 <= i < amc.capacity ==> !amc.slots[i].closed && amc.slots[i].buffer == Policies.Range(e + 1)
  {
    assert Policies.Range(e) + [e] == Policies.Range(e + 1);
    for id := 0 to amc.capacity
      invariant amc.Valid()
      invariant forall i :: 0 <= i < amc.capacity ==> !amc.slots[i].closed
      invariant forall i :: 0 <= i < id ==> amc.slots[i].buffer == Policies.Range(e + 1)
      invariant forall i :: id <= i < amc.capacity ==> amc.slots[i].buffer == Policies.Range(e)
    {
      var c := amc.Get(id).value;
      var _ := c.Send(e);
    }
  }

  /** Polls `c` `m` times when it holds exactly `0, ..., m-1`: the values
      come back in the order they were sent. */
  method PollAll(c: Channel<int>, m: nat) returns (got: seq<int>)
    requires c.Valid() && c.buffer == Policies.Range(m)
    modifies c
    ensures c.Valid() && c.buffer == [] && got == Policies.Range(m)
  {
    got := [];
    for k := 0 to m
      invariant c.Valid()
      invariant got == Policies.Range(k) && c.buffer == Policies.Range(m)[k..]
    {
      var head := c.Poll();
      got := got + [head.value.value];
    }
  }

  /** The channels are independent FIFO queues: `n` channels of buffer size
      `m` are each sent `0, 1, ..., m-1`, interleaved (value `e` goes to
      every channel before `e + 1` goes to any), and then each is polled
      `m` times. Every channel gives back `0, 1, ..., m-1` in order. */
  method SendThenPollEach(n: nat, m: nat) returns (received: seq<seq<int>>)
    ensures |received| == n
    ensures forall id :: 0 <= id < n ==> received[id] == Policies.Range(m)
  {
    var amc := new ArrayMultiChannel<int>(n, m);
    for e := 0 to m
      invariant amc.Valid() && amc.capacity == n && amc.capacityPerChannel == m
      invariant forall i :: 0 <= i < n ==>
                  fresh(amc.slots[i]) && !amc.slots[i].closed && amc.slots[i].buffer == Policies.Range(e)
    {
      SendToEach(amc, e);
    }
    received := [];
    for id := 0 to n
      invariant amc.Valid() && amc.capacity == n
      invariant |received| == id
      invariant forall i :: 0 <= i < id ==> received[i] == Policies.Range(m)
      invariant forall i :: 0 <= i < n ==> fresh(amc.slots[i])
      invariant forall i :: id <= i < n ==> amc.slots[i].buffer == Policies.Range(m)
    {
      var got := PollAll(amc.Get(id).value, m);
      received := received + [got];
    }
  }
}
