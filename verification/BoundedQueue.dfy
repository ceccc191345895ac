/** `writer/internal/boundedqueue`: the fixed-capacity FIFO between `fetchLoop` and `batchLoop`. */
module BoundedQueue {

  /** How a push ends: the item is in, the context was done, or the goroutine waits. */
  datatype PushResult = Queued | Refused | Waits

  /**
    A buffered Go channel.  An operation that would block says so instead and changes nothing; the
    caller's goroutine is then simply not scheduled past it.
   */
  class Queue<T> {
    const capacity: nat
    var items: seq<T>

    predicate Valid()
      reads this
    {
      |items| <= capacity
    }

    constructor (capacity: nat)
      ensures Valid() && items == [] && this.capacity == capacity
    {
      this.capacity := capacity;
      items := [];
    }

    /**
      The select between the channel and the context.  Where both are ready, `pickDone` says which
      one is picked.
     */
    method Push(item: T, cancelled: bool, pickDone: bool) returns (r: PushResult)
      requires Valid()
      modifies this
      ensures Valid()
      ensures r.Queued? ==> |old(items)| < capacity && items == old(items) + [item]
      ensures r.Refused? ==> cancelled && items == old(items)
      ensures r.Waits? <==> !cancelled && |old(items)| == capacity
      ensures r.Waits? ==> items == old(items)
      ensures cancelled && |old(items)| < capacity ==> (r.Refused? <==> pickDone)
    {
      var room := |items| < capacity;
      if cancelled && (pickDone || !room) {
        return Refused;
      }
      if !room {
        return Waits;
      }
      items := items + [item];
      return Queued;
    }

    /** The receive side of `C`. */
    method Receive() returns (ok: bool, got: seq<T>)
      requires Valid()
      modifies this
      ensures Valid()
      ensures ok <==> old(items) != []
      ensures |got| == (if ok then 1 else 0) && old(items) == got + items
    {
      ok := items != [];
      got := [];
      if ok {
        got := [items[0]];
        items := items[1..];
      }
    }
  }
}
