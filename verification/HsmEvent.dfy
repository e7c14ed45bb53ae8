/**
 RTHsmEvent and its in-memory form. The queue stores events as raw records of EVENT_SIZE bytes: the
 id, three bytes of padding, then the parameters, least significant byte first (the x64 layout).
 */
module HsmEvent {
  import opened Words

  const EVENT_SIZE: uint16 := 12

  datatype Event = Event(id: byte, param0: bv32, param1: bv32)

  function EncodeWord(x: bv32): (r: seq<byte>)
    ensures |r| == 4
  {
    [(x & 0xFF) as byte, ((x >> 8) & 0xFF) as byte, ((x >> 16) & 0xFF) as byte, ((x >> 24) & 0xFF) as byte]
  }

  function DecodeWord(r: seq<byte>): bv32
    requires |r| == 4
  {
    r[0] as bv32 | (r[1] as bv32 << 8) | (r[2] as bv32 << 16) | (r[3] as bv32 << 24)
  }

  function EncodeEvent(e: Event): (r: seq<byte>)
    ensures |r| == EVENT_SIZE as nat
  {
    [e.id, 0, 0, 0] + EncodeWord(e.param0) + EncodeWord(e.param1)
  }

  /** Reads a record; whatever the padding holds is ignored. */
  function DecodeEvent(r: seq<byte>): Event
    requires |r| == EVENT_SIZE as nat
  {
    Event(r[0], DecodeWord(r[4..8]), DecodeWord(r[8..12]))
  }

  /** Id, padding, parameters with the least significant byte first. */
  lemma RecordLayout()
    ensures EncodeEvent(Event(1, 0x0203_0405, 0x0607_0809)) == [1, 0, 0, 0, 5, 4, 3, 2, 9, 8, 7, 6]
  {
  }

  /** An event survives the queue. */
  lemma EventRoundTrip(e: Event)
    ensures DecodeEvent(EncodeEvent(e)) == e
  {
  }

  predicate AreRecords(items: seq<seq<byte>>) {
    forall i :: 0 <= i < |items| ==> |items[i]| == EVENT_SIZE as nat
  }

  function DecodeAll(items: seq<seq<byte>>): (events: seq<Event>)
    requires AreRecords(items)
    ensures |events| == |items|
    ensures forall i :: 0 <= i < |items| ==> events[i] == DecodeEvent(items[i])
  {
    seq(|items|, i requires 0 <= i < |items| => DecodeEvent(items[i]))
  }

  lemma DecodeAllPush(items: seq<seq<byte>>, e: Event)
    requires AreRecords(items)
    ensures AreRecords(items + [EncodeEvent(e)])
    ensures DecodeAll(items + [EncodeEvent(e)]) == DecodeAll(items) + [e]
  {
  }

  lemma DecodeAllPop(items: seq<seq<byte>>)
    requires AreRecords(items) && items != []
    ensures AreRecords(items[1..])
    ensures DecodeAll(items) == [DecodeEvent(items[0])] + DecodeAll(items[1..])
  {
  }
}
