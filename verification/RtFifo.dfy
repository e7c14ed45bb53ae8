/**
 The byte-level FIFOs of src/rtfifo. Both classes keep `size` items of `itemSize` bytes in slots of a
 caller-supplied buffer and are proved against the sequence of queued items. Fields have the C
 widths, so the verifier also checks that no index wraps.
 */
module RtFifo {
  import opened Words
  import opened Ring
  import BoundedQueue

  /** RTMemcpy: copies the shorter of the two lengths. `dst + dstAt` and `src + srcAt` are the C pointers. */
  method Memcpy(dst: array<byte>, dstAt: nat, dstSize: uint16, src: array<byte>, srcAt: nat, srcSize: uint16)
    requires dst != src
    requires dstAt + dstSize as nat <= dst.Length && srcAt + srcSize as nat <= src.Length
    modifies dst
    ensures var n := if dstSize < srcSize then dstSize as nat else srcSize as nat;
            && dst[dstAt..dstAt + n] == src[srcAt..srcAt + n]
            && forall i :: 0 <= i < dst.Length && !(dstAt <= i < dstAt + n) ==> dst[i] == old(dst[i])
  {
    if dstSize > 0 && srcSize > 0 {
      var n := if dstSize < srcSize then dstSize as nat else srcSize as nat;
      for k := 0 to n
        invariant dst[dstAt..dstAt + k] == src[srcAt..srcAt + k]
        invariant forall i :: 0 <= i < dst.Length && !(dstAt <= i < dstAt + k) ==> dst[i] == old(dst[i])
      {
        dst[dstAt + k] := src[srcAt + k];
        assert dst[dstAt..dstAt + k + 1] == dst[dstAt..dstAt + k] + [dst[dstAt + k]];
        assert src[srcAt..srcAt + k + 1] == src[srcAt..srcAt + k] + [src[srcAt + k]];
      }
    }
  }

  /** The FIFO for up to 65,535 items (RTFifo). */
  class Fifo {
    const capacity: uint16
    const itemSize: uint16
    const buffer: array<byte>
    var head: uint16
    var tail: uint16
    var size: uint16

    ghost predicate Valid()
      reads this
    {
      && capacity > 0 && itemSize > 0
      && Offset(capacity as nat, itemSize as nat) <= buffer.Length
      && Offset(capacity as nat - 1, itemSize as nat) < 0x8000_0000
      && size <= capacity && tail < capacity
      && head as nat == Wrap(tail as nat + size as nat, capacity as nat)
    }

    /** The queued items, oldest first. */
    ghost function Contents(): (items: seq<seq<byte>>)
      requires Valid()
      reads this, buffer
      ensures |items| == size as nat
      ensures forall i :: 0 <= i < |items| ==> |items[i]| == itemSize as nat
    {
      ItemWidths(buffer[..], tail as nat, size as nat, capacity as nat, itemSize as nat);
      Items(buffer[..], tail as nat, size as nat, capacity as nat, itemSize as nat)
    }

    /** The bytes the next accepted push will overwrite. */
    ghost function FreeSlot(): (slot: seq<byte>)
      requires Valid()
      reads this, buffer
      ensures |slot| == itemSize as nat
    {
      SlotInside(buffer[..], head as nat, capacity as nat, itemSize as nat);
      Slot(buffer[..], head as nat, itemSize as nat)
    }

    /**
     RTFifoInit. A slot's offset is computed in a C `int`, so besides a large enough buffer the
     caller must keep the last slot's offset below 2^31.
     */
    constructor (capacity: uint16, itemSize: uint16, buffer: array<byte>)
      requires capacity > 0 && itemSize > 0
      requires capacity as nat * itemSize as nat <= buffer.Length
      requires (capacity as nat - 1) * itemSize as nat < 0x8000_0000
      ensures Valid() && Contents() == []
      ensures this.capacity == capacity && this.itemSize == itemSize && this.buffer == buffer
    {
      OffsetIsProduct(capacity as nat, itemSize as nat);
      OffsetIsProduct(capacity as nat - 1, itemSize as nat);
      this.head, this.tail, this.size := 0, 0, 0;
      this.capacity, this.itemSize, this.buffer := capacity, itemSize, buffer;
    }

    /** Where slot k starts, computed in `int` as the C code does. */
    method SlotOffset(k: uint16) returns (at: int32)
      requires Valid() && k < capacity
      ensures at as int == Offset(k as nat, itemSize as nat)
      ensures at as int + itemSize as int <= buffer.Length
    {
      OffsetIsProduct(k as nat, itemSize as nat);
      SlotInside(buffer[..], k as nat, capacity as nat, itemSize as nat);
      if k < capacity - 1 {
        SlotsApart(k as nat, capacity as nat - 1, itemSize as nat);
      }
      at := k as int32 * itemSize as int32;
    }

    method Size() returns (n: uint16)
      requires Valid()
      ensures n as nat == |Contents()|
    {
      n := size;
    }

    method IsEmpty() returns (empty: bool)
      requires Valid()
      ensures empty <==> Contents() == []
    {
      empty := size == 0;
    }

    method IsFull() returns (full: bool)
      requires Valid()
      ensures full <==> |Contents()| == capacity as nat
    {
      full := size >= capacity;
    }

    /** RTFifoPush: appends the item unless the queue is full. A short item keeps the slot's old tail. */
    method Push(item: array<byte>, itemSize: uint16) returns (pushed: bool)
      requires Valid() && item != buffer
      requires 0 < itemSize <= this.itemSize && itemSize as nat <= item.Length
      modifies this, buffer
      ensures Valid() && item[..] == old(item[..])
      ensures pushed <==> |old(Contents())| < capacity as nat
      ensures pushed ==> Contents() == old(Contents()) + [item[..itemSize] + old(FreeSlot())[itemSize..]]
      ensures pushed ==> OnlySlotChanged(old(buffer[..]), buffer[..], old(head) as nat, this.itemSize as nat)
      ensures !pushed ==> Contents() == old(Contents()) && buffer[..] == old(buffer[..])
      ensures BoundedQueue.Step(capacity as nat, this.itemSize as nat, old(Contents()),
                                BoundedQueue.Push(item[..itemSize], pushed), Contents())
    {
      hide Offset, Slot, Items, OnlySlotChanged;
      pushed := false;
      if size < capacity {
        var at := SlotOffset(head);
        Memcpy(buffer, at as nat, this.itemSize, item, 0, itemSize);
        assert buffer[..][at..at as nat + itemSize as nat] == item[..itemSize];
        SlotWritten(old(buffer[..]), buffer[..], item[..itemSize], head as nat, this.itemSize as nat);
        PushAppends(old(buffer[..]), buffer[..], tail as nat, size as nat, capacity as nat, this.itemSize as nat);
        head := head + 1;
        if head >= capacity {
          head := 0;
        }
        size := size + 1;
        pushed := true;
      }
    }

    /** RTFifoPop: hands out the oldest item unless the queue is empty; the buffer is only read. */
    method Pop(item: array<byte>, itemSize: uint16) returns (popped: bool)
      requires Valid() && item != buffer
      requires this.itemSize <= itemSize && itemSize as nat <= item.Length
      modifies this, item
      ensures Valid() && buffer[..] == old(buffer[..])
      ensures popped <==> old(Contents()) != []
      ensures popped ==> item[..this.itemSize] == old(Contents())[0] && Contents() == old(Contents())[1..]
      ensures popped ==> item[this.itemSize..] == old(item[this.itemSize..])
      ensures !popped ==> Contents() == old(Contents()) && item[..] == old(item[..])
      ensures BoundedQueue.Step(capacity as nat, this.itemSize as nat, old(Contents()),
                                BoundedQueue.Pop(if popped then Some(item[..this.itemSize]) else None), Contents())
    {
      hide Offset, Items;
      popped := false;
      if size > 0 {
        var at := SlotOffset(tail);
        OldestItem(buffer[..], tail as nat, size as nat, capacity as nat, this.itemSize as nat);
        assert Slot(buffer[..], tail as nat, this.itemSize as nat) == Contents()[0];
        Memcpy(item, 0, itemSize, buffer, at as nat, this.itemSize);
        PopDropsOldest(buffer[..], tail as nat, size as nat, capacity as nat, this.itemSize as nat);
        tail := tail + 1;
        if tail >= capacity {
          tail := 0;
        }
        size := size - 1;
        popped := true;
      }
    }
  }

  /** The FIFO for up to 255 items (RTSmallFifo). */
  class SmallFifo {
    const capacity: uint8
    const itemSize: uint8
    const buffer: array<byte>
    var head: uint8
    var tail: uint8
    var size: uint8

    ghost predicate Valid()
      reads this
    {
      && capacity > 0 && itemSize > 0
      && Offset(capacity as nat, itemSize as nat) <= buffer.Length
      && size <= capacity && tail < capacity
      && head as nat == Wrap(tail as nat + size as nat, capacity as nat)
    }

    /** The queued items, oldest first. */
    ghost function Contents(): (items: seq<seq<byte>>)
      requires Valid()
      reads this, buffer
      ensures |items| == size as nat
      ensures forall i :: 0 <= i < |items| ==> |items[i]| == itemSize as nat
    {
      ItemWidths(buffer[..], tail as nat, size as nat, capacity as nat, itemSize as nat);
      Items(buffer[..], tail as nat, size as nat, capacity as nat, itemSize as nat)
    }

    /** The bytes the next accepted push will overwrite. */
    ghost function FreeSlot(): (slot: seq<byte>)
      requires Valid()
      reads this, buffer
      ensures |slot| == itemSize as nat
    {
      SlotInside(buffer[..], head as nat, capacity as nat, itemSize as nat);
      Slot(buffer[..], head as nat, itemSize as nat)
    }

    /**
     RTSmallFifoInit. With 8-bit fields a slot's offset always fits the C `int` it is computed in.
     */
    constructor (capacity: uint8, itemSize: uint8, buffer: array<byte>)
      requires capacity > 0 && itemSize > 0
      requires capacity as nat * itemSize as nat <= buffer.Length
      ensures Valid() && Contents() == []
      ensures this.capacity == capacity && this.itemSize == itemSize && this.buffer == buffer
    {
      OffsetIsProduct(capacity as nat, itemSize as nat);
      this.head, this.tail, this.size := 0, 0, 0;
      this.capacity, this.itemSize, this.buffer := capacity, itemSize, buffer;
    }

    /** Where slot k starts, computed in `int` as the C code does. */
    method SlotOffset(k: uint8) returns (at: int32)
      requires Valid() && k < capacity
      ensures at as int == Offset(k as nat, itemSize as nat)
      ensures at as int + itemSize as int <= buffer.Length
    {
      OffsetIsProduct(k as nat, itemSize as nat);
      SlotInside(buffer[..], k as nat, capacity as nat, itemSize as nat);
      assert k as nat * itemSize as nat <= 255 * 255;
      at := k as int32 * itemSize as int32;
    }

    method Size() returns (n: uint8)
      requires Valid()
      ensures n as nat == |Contents()|
    {
      n := size;
    }

    method IsEmpty() returns (empty: bool)
      requires Valid()
      ensures empty <==> Contents() == []
    {
      empty := size == 0;
    }

    method IsFull() returns (full: bool)
      requires Valid()
      ensures full <==> |Contents()| == capacity as nat
    {
      full := size >= capacity;
    }

    /** RTSmallFifoPush: appends the item unless the queue is full. A short item keeps the slot's old tail. */
    method Push(item: array<byte>, itemSize: uint8) returns (pushed: bool)
      requires Valid() && item != buffer
      requires 0 < itemSize <= this.itemSize && itemSize as nat <= item.Length
      modifies this, buffer
      ensures Valid() && item[..] == old(item[..])
      ensures pushed <==> |old(Contents())| < capacity as nat
      ensures pushed ==> Contents() == old(Contents()) + [item[..itemSize] + old(FreeSlot())[itemSize..]]
      ensures pushed ==> OnlySlotChanged(old(buffer[..]), buffer[..], old(head) as nat, this.itemSize as nat)
      ensures !pushed ==> Contents() == old(Contents()) && buffer[..] == old(buffer[..])
      ensures BoundedQueue.Step(capacity as nat, this.itemSize as nat, old(Contents()),
                                BoundedQueue.Push(item[..itemSize], pushed), Contents())
    {
      hide Offset, Slot, Items, OnlySlotChanged;
      pushed := false;
      if size < capacity {
        var at := SlotOffset(head);
        Memcpy(buffer, at as nat, this.itemSize as uint16, item, 0, itemSize as uint16);
        assert buffer[..][at..at as nat + itemSize as nat] == item[..itemSize];
        SlotWritten(old(buffer[..]), buffer[..], item[..itemSize], head as nat, this.itemSize as nat);
        PushAppends(old(buffer[..]), buffer[..], tail as nat, size as nat, capacity as nat, this.itemSize as nat);
        head := head + 1;
        if head >= capacity {
          head := 0;
        }
        size := size + 1;
        pushed := true;
      }
    }

    /** RTSmallFifoPop: hands out the oldest item unless the queue is empty; the buffer is only read. */
    method Pop(item: array<byte>, itemSize: uint8) returns (popped: bool)
      requires Valid() && item != buffer
      requires this.itemSize <= itemSize && itemSize as nat <= item.Length
      modifies this, item
      ensures Valid() && buffer[..] == old(buffer[..])
      ensures popped <==> old(Contents()) != []
      ensures popped ==> item[..this.itemSize] == old(Contents())[0] && Contents() == old(Contents())[1..]
      ensures popped ==> item[this.itemSize..] == old(item[this.itemSize..])
      ensures !popped ==> Contents() == old(Contents()) && item[..] == old(item[..])
      ensures BoundedQueue.Step(capacity as nat, this.itemSize as nat, old(Contents()),
                                BoundedQueue.Pop(if popped then Some(item[..this.itemSize]) else None), Contents())
    {
      hide Offset, Items;
      popped := false;
      if size > 0 {
        var at := SlotOffset(tail);
        OldestItem(buffer[..], tail as nat, size as nat, capacity as nat, this.itemSize as nat);
        assert Slot(buffer[..], tail as nat, this.itemSize as nat) == Contents()[0];
        Memcpy(item, 0, itemSize as uint16, buffer, at as nat, this.itemSize as uint16);
        PopDropsOldest(buffer[..], tail as nat, size as nat, capacity as nat, this.itemSize as nat);
        tail := tail + 1;
        if tail >= capacity {
          tail := 0;
        }
        size := size - 1;
        popped := true;
      }
    }
  }
}
