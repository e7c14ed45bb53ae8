/**
 The bounded queue the FIFOs refine: what one call may do to the queued items, and what that means
 for every sequence of calls.
 */
module BoundedQueue {
  import opened Words

  /** One call with its outcome. */
  datatype Call =
    | Push(item: seq<byte>, accepted: bool)
    | Pop(got: Option<seq<byte>>)

  /**
   `queue'` is a legal outcome of the call. An accepted item is stored at full width with the item as
   its prefix: the bytes after a short item are whatever the slot held.
   */
  ghost predicate Step(capacity: nat, width: nat, queue: seq<seq<byte>>, call: Call, queue': seq<seq<byte>>) {
    match call
    case Push(item, accepted) =>
      && (accepted <==> |queue| < capacity)
      && (!accepted ==> queue' == queue)
      && (accepted ==>
            && |queue'| == |queue| + 1 && queue'[..|queue|] == queue
            && |queue'[|queue|]| == width && item <= queue'[|queue|])
    case Pop(got) =>
      && (got.Some? <==> queue != [])
      && (got.None? ==> queue' == queue)
      && (got.Some? ==> queue == [got.value] + queue')
  }

  /** `queues[k]` is the content before call k, `queues[|calls|]` the final content. */
  ghost predicate Run(capacity: nat, width: nat, calls: seq<Call>, queues: seq<seq<seq<byte>>>) {
    && |queues| == |calls| + 1 && queues[0] == []
    && forall k :: 0 <= k < |calls| ==> Step(capacity, width, queues[k], calls[k], queues[k + 1])
  }

  /** The items accepted, in order. */
  function Pushed(calls: seq<Call>): seq<seq<byte>> {
    if calls == [] then []
    else var last := calls[|calls| - 1];
      Pushed(calls[..|calls| - 1]) + if last.Push? && last.accepted then [last.item] else []
  }

  /** The items handed out, in order. */
  function Popped(calls: seq<Call>): seq<seq<byte>> {
    if calls == [] then []
    else var last := calls[|calls| - 1];
      Popped(calls[..|calls| - 1]) + if last.Pop? && last.got.Some? then [last.got.value] else []
  }

  /** What was stored for an item starts with the item, and is the item when it has full width. */
  ghost predicate Stores(width: nat, item: seq<byte>, stored: seq<byte>) {
    && |stored| == width && item <= stored
    && (|item| == width ==> stored == item)
  }

  /**
   Over every run: what came out, followed by what is still queued, is what went in, in the same
   order and with every item's bytes intact; and the queue never exceeds its capacity.
   */
  lemma {:induction false} InOrderAndIntact(capacity: nat, width: nat, calls: seq<Call>, queues: seq<seq<seq<byte>>>)
    requires Run(capacity, width, calls, queues)
    ensures |queues[|calls|]| <= capacity
    ensures |Popped(calls) + queues[|calls|]| == |Pushed(calls)|
    ensures forall i :: 0 <= i < |Pushed(calls)| ==>
              Stores(width, Pushed(calls)[i], (Popped(calls) + queues[|calls|])[i])
  {
    if calls != [] {
      var k := |calls| - 1;
      assert Run(capacity, width, calls[..k], queues[..|calls|]);
      InOrderAndIntact(capacity, width, calls[..k], queues[..|calls|]);
      assert Step(capacity, width, queues[k], calls[k], queues[k + 1]);
      if calls[k].Pop? && calls[k].got.Some? {
        assert Popped(calls) + queues[k + 1] == Popped(calls[..k]) + queues[k];
      } else if calls[k].Push? && calls[k].accepted {
        assert queues[k + 1] == queues[k] + [queues[k + 1][|queues[k]|]];
        assert Popped(calls) + queues[k + 1]
            == Popped(calls[..k]) + queues[k] + [queues[k + 1][|queues[k]|]];
      }
    }
  }
}
