/** An abstract stand-in for a kotlinx.coroutines `Channel<E>` as the
    partitioning code uses it: a bounded FIFO buffer with a fixed capacity
    (0 is a rendezvous channel), a closed-for-send flag and the cause it was
    closed with. No receiver is ever waiting, so a `send` that finds the
    buffer full reports that it would suspend instead of suspending. */
module Channels {
  import opened Lang

  /** How `send` ends: the element was buffered, the caller would be
      suspended (the buffer is full), or an exception was thrown. */
  datatype SendOutcome = Delivered | Suspended | Raised(thrown: Throwable)

  class Channel<E> {
    /** The buffer size given at construction (`Channel(capacity)`). */
    const capacity: nat
    /** The buffered elements, oldest first. */
    var buffer: seq<E>
    /** `isClosedForSend`. */
    var closed: bool
    /** The cause given to the `close` call that closed the channel. */
    var closeCause: Option<Throwable>

    ghost predicate Valid()
      reads this
    {
      |buffer| <= capacity && (!closed ==> closeCause == None)
    }

    constructor (capacity: nat)
      ensures Valid()
      ensures this.capacity == capacity && buffer == [] && !closed && closeCause == None
    {
      this.capacity := capacity;
      buffer := [];
      closed := false;
      closeCause := None;
    }

    /** The exception a send to this channel raises once it is closed:
        the close cause, or `ClosedSendChannelException` when there is none. */
    function SendException(): (t: Throwable)
      reads this
      ensures closeCause.Some? ==> t == closeCause.value
      ensures closeCause.None? ==> t == ClosedSendChannelException
    {
      match closeCause
      case Some(cause) => cause
      case None => ClosedSendChannelException
    }

    /** `send(e)`: fails on a closed channel, would suspend on a full one,
        and otherwise appends `e` at the tail. */
    method Send(e: E) returns (r: SendOutcome)
      requires Valid()
      modifies this
      ensures Valid()
      ensures closed == old(closed) && closeCause == old(closeCause)
      ensures old(closed) ==> r == Raised(old(SendException())) && buffer == old(buffer)
      ensures !old(closed) && |old(buffer)| < capacity ==> r == Delivered && buffer == old(buffer) + [e]
      ensures !old(closed) && |old(buffer)| == capacity ==> r == Suspended && buffer == old(buffer)
    {
      if closed {
        r := Raised(SendException());
      } else if |buffer| < capacity {
        buffer := buffer + [e];
        r := Delivered;
      } else {
        r := Suspended;
      }
    }

    /** `offer(e)`: throws on a closed channel; otherwise appends `e` and
        answers true when there is room, and answers false leaving the
        buffer as it was when the buffer is full. */
    method Offer(e: E) returns (r: Completion<bool>)
      requires Valid()
      modifies this
      ensures Valid()
      ensures closed == old(closed) && closeCause == old(closeCause)
      ensures old(closed) ==> r == Thrown(old(SendException())) && buffer == old(buffer)
      ensures !old(closed) ==> r.Normal? && (r.value <==> |old(buffer)| < capacity)
      ensures !old(closed) && |old(buffer)| < capacity ==> buffer == old(buffer) + [e]
      ensures !old(closed) && |old(buffer)| == capacity ==> buffer == old(buffer)
    {
      if closed {
        r := Thrown(SendException());
      } else if |buffer| < capacity {
        buffer := buffer + [e];
        r := Normal(true);
      } else {
        r := Normal(false);
      }
    }

    /** `poll()`: removes and returns the head of the buffer. On an empty
        buffer it answers null, unless the channel was closed with a cause,
        which it then throws. */
    method Poll() returns (r: Completion<Option<E>>)
      requires Valid()
      modifies this
      ensures Valid()
      ensures closed == old(closed) && closeCause == old(closeCause)
      ensures old(buffer) != [] ==> r == Normal(Some(old(buffer)[0])) && buffer == old(buffer)[1..]
      ensures old(buffer) == [] ==> buffer == []
      ensures old(buffer) == [] && closed && closeCause.Some? ==> r == Thrown(closeCause.value)
      ensures old(buffer) == [] && !(closed && closeCause.Some?) ==> r == Normal(None)
    {
      if buffer != [] {
        r := Normal(Some(buffer[0]));
        buffer := buffer[1..];
      } else if closed && closeCause.Some? {
        r := Thrown(closeCause.value);
      } else {
        r := Normal(None);
      }
    }

    /** `close(cause)`: closes the channel for sending; answers true when
        this call closed it and false when it was already closed, in which
        case nothing changes. Buffered elements stay receivable. */
    method Close(cause: Option<Throwable>) returns (closedNow: bool)
      requires Valid()
      modifies this
      ensures Valid()
      ensures closed && buffer == old(buffer)
      ensures closedNow == !old(closed)
      ensures closeCause == if old(closed) then old(closeCause) else cause
    {
      closedNow := !closed;
      if !closed {
        closed := true;
        closeCause := cause;
      }
    }
  }
}
