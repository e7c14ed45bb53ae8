/**
 The slots of a ring buffer as plain sequences. A buffer of `cap` slots, each `width` bytes wide,
 holds `size` items starting at slot `tail` and continuing modulo `cap`. Both FIFO classes are
 stated in these terms.
 */
module Ring {
  import opened Words

  /** Where slot k starts: k * width, built up by addition to keep the proofs linear. */
  function Offset(k: nat, width: nat): nat {
    if k == 0 then 0 else Offset(k - 1, width) + width
  }

  lemma {:induction false} OffsetIsProduct(k: nat, width: nat)
    ensures Offset(k, width) == k * width
  {
    if k > 0 {
      OffsetIsProduct(k - 1, width);
    }
  }

  /** x modulo cap, for an x that is past the end by less than one turn. */
  function Wrap(x: nat, cap: nat): nat
    requires x < 2 * cap
  {
    if x < cap then x else x - cap
  }

  lemma WrapIsModulo(x: nat, cap: nat)
    requires x < 2 * cap
    ensures Wrap(x, cap) == x % cap
  {
  }

  /** The bytes of slot k. */
  function Slot(buf: seq<byte>, k: nat, width: nat): seq<byte> {
    var at := Offset(k, width);
    if at + width <= |buf| then buf[at..at + width] else []
  }

  /** The queued items, oldest first. */
  function Items(buf: seq<byte>, tail: nat, size: nat, cap: nat, width: nat): (items: seq<seq<byte>>)
    requires tail < cap && size <= cap
    ensures |items| == size
  {
    seq(size, i requires 0 <= i < size => Slot(buf, Wrap(tail + i, cap), width))
  }

  /** Slots never overlap. */
  lemma {:induction false} SlotsApart(j: nat, k: nat, width: nat)
    requires j < k
    ensures Offset(j, width) + width <= Offset(k, width)
  {
    if j + 1 < k {
      SlotsApart(j, k - 1, width);
    }
  }

  /**
   RTFifo computes slot offsets in a 32-bit `int`. All of them fit if and only if the last one does;
   the documented maximum of 65,535 items of 65,535 bytes is outside that range.
   */
  lemma OffsetsFitInt(cap: nat, width: nat)
    requires cap > 0
    ensures (forall k: nat :: k < cap ==> Offset(k, width) < 0x8000_0000) <==> (cap - 1) * width < 0x8000_0000
    ensures !(forall k: nat :: k < 65535 ==> Offset(k, 65535) < 0x8000_0000)
  {
    OffsetIsProduct(cap - 1, width);
    forall k: nat | k < cap - 1
      ensures Offset(k, width) <= Offset(cap - 1, width)
    {
      SlotsApart(k, cap - 1, width);
    }
    OffsetIsProduct(65534, 65535);
    assert !(Offset(65534, 65535) < 0x8000_0000);
  }

  /** Every slot index below the capacity names `width` bytes of the buffer. */
  lemma SlotInside(buf: seq<byte>, k: nat, cap: nat, width: nat)
    requires k < cap && Offset(cap, width) <= |buf|
    ensures Offset(k, width) + width <= |buf|
    ensures |Slot(buf, k, width)| == width
  {
  }

  lemma ItemWidths(buf: seq<byte>, tail: nat, size: nat, cap: nat, width: nat)
    requires tail < cap && size <= cap && Offset(cap, width) <= |buf|
    ensures forall i :: 0 <= i < size ==> |Items(buf, tail, size, cap, width)[i]| == width
  {
    forall i | 0 <= i < size
      ensures |Items(buf, tail, size, cap, width)[i]| == width
    {
      SlotInside(buf, Wrap(tail + i, cap), cap, width);
    }
  }

  /** `after` differs from `before` at most inside slot h. */
  ghost predicate OnlySlotChanged(before: seq<byte>, after: seq<byte>, h: nat, width: nat) {
    && |after| == |before|
    && forall i :: 0 <= i < |before| && !(Offset(h, width) <= i < Offset(h, width) + width) ==> after[i] == before[i]
  }

  /** Writing an item into slot h replaces the slot's first bytes and nothing else. */
  lemma SlotWritten(before: seq<byte>, after: seq<byte>, item: seq<byte>, h: nat, width: nat)
    requires |after| == |before| && Offset(h, width) + width <= |before| && |item| <= width
    requires after[Offset(h, width)..Offset(h, width) + |item|] == item
    requires forall i :: 0 <= i < |before| && !(Offset(h, width) <= i < Offset(h, width) + |item|) ==>
               after[i] == before[i]
    ensures Slot(after, h, width) == item + Slot(before, h, width)[|item|..]
    ensures OnlySlotChanged(before, after, h, width)
  {
    hide Offset;
    var at := Offset(h, width);
    var x, y := Slot(after, h, width), item + Slot(before, h, width)[|item|..];
    forall i | 0 <= i < width
      ensures x[i] == y[i]
    {
      if i < |item| {
        assert after[at..at + |item|][i] == after[at + i];
      }
    }
  }

  lemma OtherSlot(before: seq<byte>, after: seq<byte>, k: nat, h: nat, cap: nat, width: nat)
    requires k < cap && k != h && Offset(cap, width) <= |before| && OnlySlotChanged(before, after, h, width)
    ensures Slot(after, k, width) == Slot(before, k, width)
  {
    hide Offset;
    SlotInside(before, k, cap, width);
    if k < h {
      SlotsApart(k, h, width);
    } else {
      SlotsApart(h, k, width);
    }
  }

  /** Writing the slot after the last item appends exactly one item and leaves the others alone. */
  lemma PushAppends(before: seq<byte>, after: seq<byte>, tail: nat, size: nat, cap: nat, width: nat)
    requires tail < cap && size < cap && Offset(cap, width) <= |before|
    requires OnlySlotChanged(before, after, Wrap(tail + size, cap), width)
    ensures Items(after, tail, size + 1, cap, width)
         == Items(before, tail, size, cap, width) + [Slot(after, Wrap(tail + size, cap), width)]
  {
    hide Offset, Slot, OnlySlotChanged;
    var h := Wrap(tail + size, cap);
    var old', new' := Items(before, tail, size, cap, width), Items(after, tail, size + 1, cap, width);
    forall i | 0 <= i < size
      ensures new'[i] == old'[i]
    {
      OtherSlot(before, after, Wrap(tail + i, cap), h, cap, width);
    }
    assert new'[size] == Slot(after, h, width);
    assert new' == old' + [Slot(after, h, width)];
  }

  lemma OldestItem(buf: seq<byte>, tail: nat, size: nat, cap: nat, width: nat)
    requires tail < cap && 0 < size <= cap
    ensures Items(buf, tail, size, cap, width)[0] == Slot(buf, tail, width)
  {
    assert Items(buf, tail, size, cap, width)[0] == Slot(buf, Wrap(tail + 0, cap), width);
    assert Wrap(tail + 0, cap) == tail;
  }

  /** Advancing the tail drops exactly the oldest item. */
  lemma PopDropsOldest(buf: seq<byte>, tail: nat, size: nat, cap: nat, width: nat)
    requires tail < cap && 0 < size <= cap
    ensures Items(buf, Wrap(tail + 1, cap), size - 1, cap, width) == Items(buf, tail, size, cap, width)[1..]
  {
    var rest, all := Items(buf, Wrap(tail + 1, cap), size - 1, cap, width), Items(buf, tail, size, cap, width);
    forall i | 0 <= i < size - 1
      ensures rest[i] == all[1..][i]
    {
      assert Wrap(Wrap(tail + 1, cap) + i, cap) == Wrap(tail + (i + 1), cap);
    }
  }
}
