/** A Go channel, seen sequentially: the values sent and not yet
    received, oldest first, and whether the channel has been closed.
    Blocking is not modelled; a receive that would block forever is
    excluded by its precondition. */
module Channels {
  import opened Results

  class Channel<T> {
    var items: seq<T>
    var closed: bool

    /** `make(chan T)` */
    constructor()
      ensures items == [] && !closed
    {
      items := [];
      closed := false;
    }

    /** `ch <- v`; sending on a closed channel panics. */
    method Send(v: T)
      requires !closed
      modifies this
      ensures items == old(items) + [v]
      ensures closed == old(closed)
    {
      items := items + [v];
    }

    /** `close(ch)`; closing a channel twice panics. */
    method Close()
      requires !closed
      modifies this
      ensures closed
      ensures items == old(items)
    {
      closed := true;
    }

    /** One step of `for v := range ch`: the oldest pending value, or
        None once the channel is closed and drained. */
    method Receive() returns (v: Option<T>)
      requires closed || items != []
      modifies this
      ensures old(items) == [] ==> v == None && items == []
      ensures old(items) != [] ==> v == Some(old(items)[0]) && items == old(items)[1..]
      ensures closed == old(closed)
    {
      if items == [] {
        v := None;
      } else {
        v := Some(items[0]);
        items := items[1..];
      }
    }
  }
}
