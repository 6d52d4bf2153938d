/** The storage of a queue (queue.c): a ring of byte slots as a bounded deque. */
module QueueStorage {
  import opened Arithmetic
  import opened RingArithmetic

  type Byte = bv8

  /** The bytes of slot j. */
  function ItemAt(cells: seq<Byte>, j: nat, size: nat): (item: seq<Byte>)
    requires j * size + size <= |cells|
    ensures |item| == size
  {
    cells[j * size..j * size + size]
  }

  /** Slots lie in the storage, one behind the other. */
  lemma SlotBounds(j: nat, length: nat, size: nat)
    requires j < length
    ensures 0 <= j * size && j * size + size <= length * size
  {
    MulMonotone(j + 1, length, size);
  }

  /** The storage after an item has been copied to a place. */
  function Stored(cells: seq<Byte>, at: nat, item: seq<Byte>): (r: seq<Byte>)
    requires at + |item| <= |cells|
    ensures |r| == |cells|
    ensures forall x :: 0 <= x < |r| ==> r[x] == if at <= x < at + |item| then item[x - at] else cells[x]
  {
    cells[..at] + item + cells[at + |item|..]
  }

  lemma SliceElsewhere(cells: seq<Byte>, at: nat, item: seq<Byte>, from: nat)
    requires at + |item| <= |cells| && from + |item| <= |cells| && (from + |item| <= at || at + |item| <= from)
    ensures Stored(cells, at, item)[from..from + |item|] == cells[from..from + |item|]
  {
  }

  lemma SlotsApart(j: nat, k: nat, size: nat)
    requires j != k
    ensures k * size + size <= j * size || j * size + size <= k * size
  {
    if k < j { MulMonotone(k + 1, j, size); } else { MulMonotone(j + 1, k, size); }
  }

  lemma StoredElsewhere(cells: seq<Byte>, j: nat, item: seq<Byte>, k: nat, length: nat)
    requires |cells| == length * |item| && j < length && k < length && j != k
    ensures 0 <= j * |item| && j * |item| + |item| <= |cells| && 0 <= k * |item| && k * |item| + |item| <= |cells|
    ensures ItemAt(Stored(cells, j * |item|, item), k, |item|) == ItemAt(cells, k, |item|)
  {
    var size := |item|;
    SlotBounds(j, length, size);
    SlotBounds(k, length, size);
    SlotsApart(j, k, size);
    SliceElsewhere(cells, j * size, item, k * size);
  }

  ghost predicate SlotHolds(cells: seq<Byte>, j: nat, size: nat, item: seq<Byte>) {
    j * size + size <= |cells| && ItemAt(cells, j, size) == item
  }

  /** The items, in order, are in the slots from first on, once round. */
  ghost predicate Holds(cells: seq<Byte>, length: nat, size: nat, first: nat, items: seq<seq<Byte>>) {
    && first < length && |cells| == length * size && |items| <= length
    && forall i :: 0 <= i < |items| ==> SlotHolds(cells, Slot(first + i, length), size, items[i])
  }

  function Before(first: nat, length: nat): (r: nat)
    requires first < length
    ensures r < length && Slot(r + 1, length) == first
  {
    if first == 0 then length - 1 else first - 1
  }

  lemma HoldsBack(cells: seq<Byte>, length: nat, size: nat, first: nat, items: seq<seq<Byte>>, item: seq<Byte>)
    requires Holds(cells, length, size, first, items) && |items| < length && |item| == size
    ensures Slot(first + |items|, length) * size + size <= |cells|
    ensures Holds(Stored(cells, Slot(first + |items|, length) * size, item), length, size, first, items + [item])
  {
    var w := Slot(first + |items|, length);
    SlotBounds(w, length, size);
    assert ItemAt(Stored(cells, w * size, item), w, size) == item;
    var all, cells' := items + [item], Stored(cells, w * size, item);
    forall i | 0 <= i < |all|
      ensures SlotHolds(cells', Slot(first + i, length), size, all[i])
    {
      SlotBounds(Slot(first + i, length), length, size);
      if i < |items| {
        assert SlotHolds(cells, Slot(first + i, length), size, items[i]);
        StoredElsewhere(cells, w, item, Slot(first + i, length), length);
      }
    }
  }

  lemma HoldsFront(cells: seq<Byte>, length: nat, size: nat, first: nat, items: seq<seq<Byte>>, item: seq<Byte>)
    requires Holds(cells, length, size, first, items) && |items| < length && |item| == size
    ensures Before(first, length) * size + size <= |cells|
    ensures Holds(Stored(cells, Before(first, length) * size, item), length, size, Before(first, length),
                  [item] + items)
  {
    var r := Before(first, length);
    SlotBounds(r, length, size);
    assert ItemAt(Stored(cells, r * size, item), r, size) == item;
    var all, cells' := [item] + items, Stored(cells, r * size, item);
    forall i | 0 <= i < |all|
      ensures SlotHolds(cells', Slot(r + i, length), size, all[i])
    {
      SlotBounds(Slot(r + i, length), length, size);
      if i > 0 {
        assert Slot(r + i, length) == Slot(first + (i - 1), length);
        assert SlotHolds(cells, Slot(first + (i - 1), length), size, items[i - 1]);
        StoredElsewhere(cells, r, item, Slot(r + i, length), length);
      }
    }
  }

  lemma HoldsRest(cells: seq<Byte>, length: nat, size: nat, first: nat, items: seq<seq<Byte>>)
    requires Holds(cells, length, size, first, items) && items != []
    ensures Holds(cells, length, size, Slot(first + 1, length), items[1..])
  {
    var rest, next := items[1..], Slot(first + 1, length);
    forall i | 0 <= i < |rest|
      ensures SlotHolds(cells, Slot(next + i, length), size, rest[i])
    {
      var j := i + 1;
      assert Slot(next + i, length) == Slot(first + j, length);
      assert SlotHolds(cells, Slot(first + j, length), size, items[j]);
    }
  }

  lemma FirstItem(cells: seq<Byte>, length: nat, size: nat, first: nat, items: seq<seq<Byte>>)
    requires Holds(cells, length, size, first, items) && items != []
    ensures SlotHolds(cells, first, size, items[0])
  {
    assert Slot(first + 0, length) == first;
  }
}

module ByteQueues {
  import opened Arithmetic
  import opened RingArithmetic
  import opened QueueStorage
  import opened Wrappers

  datatype Position = Back | Front | Overwrite

  /** The items are in the ring, the next one to read one slot after the read
      position, and the write position behind the last. */
  ghost predicate Placed(cells: seq<Byte>, length: nat, size: nat, readFrom: int, writeTo: int, first: nat,
                         items: seq<seq<Byte>>) {
    && Holds(cells, length, size, first, items)
    && readFrom == Before(first, length) * size
    && writeTo == Slot(first + |items|, length) * size
  }

  /** A position moved on or back by one slot. */
  lemma SlotOn(j: nat, length: nat, size: nat)
    requires j < length && size > 0
    ensures if j * size + size >= length * size then Slot(j + 1, length) == 0
            else Slot(j + 1, length) * size == j * size + size
  {
    SlotBounds(j, length, size);
    if j + 1 < length {
      MulMonotone(j + 2, length, size);
    }
  }

  lemma SlotBack(j: nat, length: nat, size: nat)
    requires j < length && size > 0
    ensures if j * size - size < 0 then Before(j, length) * size == length * size - size
            else Before(j, length) * size == j * size - size
  {
    if j > 0 {
      MulMonotone(1, j, size);
    }
  }

  /** What a send makes of the items, as the queue promises it. */
  function Sent(items: seq<seq<Byte>>, item: seq<Byte>, position: Position): seq<seq<Byte>> {
    match position
    case Back => items + [item]
    case Front => [item] + items
    case Overwrite => if items == [] then [item] else [item] + items[1..]
  }

  class ByteQueue {
    const length: nat               // uxLength
    const itemSize: nat             // uxItemSize
    const storage: array<Byte>      // from pcHead to pcTail
    var writeTo: int                // pcWriteTo, relative to pcHead
    var readFrom: int               // pcReadFrom, relative to pcHead
    var messagesWaiting: nat        // uxMessagesWaiting

    ghost var items: seq<seq<Byte>>
    ghost var first: nat            // the slot of the first item

    ghost predicate Valid()
      reads this, storage
    {
      && length >= 1 && |items| == messagesWaiting
      && (forall i :: 0 <= i < |items| ==> |items[i]| == itemSize)
      && storage.Length == length * itemSize
      && (itemSize > 0 ==> Placed(storage[..], length, itemSize, readFrom, writeTo, first, items))
    }

    /** prvInitialiseNewQueue and xQueueGenericReset. */
    constructor (length: nat, itemSize: nat)
      requires length >= 1
      ensures Valid() && fresh(storage) && items == [] && this.length == length && this.itemSize == itemSize
    {
      this.length, this.itemSize := length, itemSize;
      storage := new Byte[length * itemSize];
      messagesWaiting, items, first := 0, [], 0;
      writeTo, readFrom := 0, (length - 1) * itemSize;
    }

    /** memcpy of an item into the storage. */
    method CopyIn(at: nat, item: seq<Byte>)
      requires at + |item| <= storage.Length
      modifies storage
      ensures storage[..] == Stored(old(storage[..]), at, item)
    {
      ghost var cells := storage[..];
      for i := 0 to |item|
        invariant storage[..] == cells[..at] + item[..i] + cells[at + i..]
      {
        storage[at + i] := item[i];
      }
      assert item[..|item|] == item;
    }

    /** prvCopyDataToQueue. */
    method CopyDataToQueue(item: seq<Byte>, position: Position)
      requires Valid() && |item| == itemSize && (position == Overwrite ==> length == 1)
      requires messagesWaiting < length || position == Overwrite
      modifies this, storage
      ensures Valid()
      ensures itemSize > 0 ==> items == Sent(old(items), item, position)
      ensures itemSize > 0 && position == Back ==> items == old(items) + [item]
      ensures itemSize > 0 && position == Front ==> items == [item] + old(items)
      ensures itemSize > 0 && position == Overwrite ==> items == [item]
      ensures itemSize == 0 ==> items == old(items) + [item]
    {
      var n := messagesWaiting;
      if itemSize == 0 {
        items := items + [item];
      } else if position == Back {
        CopyToBack(item);
      } else {
        CopyToFront(item, position);
        if position == Overwrite && n > 0 {
          n := n - 1;
        }
      }
      messagesWaiting := n + 1;
    }

    method CopyToBack(item: seq<Byte>)
      requires Valid() && |item| == itemSize > 0 && messagesWaiting < length
      modifies this`writeTo, this`items, storage
      ensures items == old(items) + [item] && Placed(storage[..], length, itemSize, readFrom, writeTo, first, items)
    {
      ghost var w := Slot(first + |items|, length);
      HoldsBack(storage[..], length, itemSize, first, items, item);
      SlotOn(w, length, itemSize);
      CopyIn(writeTo, item);
      items := items + [item];
      writeTo := writeTo + itemSize;
      if writeTo >= storage.Length {
        writeTo := 0;
      }
    }

    method CopyToFront(item: seq<Byte>, position: Position)
      requires Valid() && |item| == itemSize > 0 && position != Back && (position == Overwrite ==> length == 1)
      requires messagesWaiting < length || position == Overwrite
      modifies this`readFrom, this`items, this`first, storage
      ensures items == [item] + if position == Overwrite && messagesWaiting > 0 then old(items)[1..] else old(items)
      ensures Placed(storage[..], length, itemSize, readFrom, writeTo, first, items)
    {
      ghost var kept := items;
      if position == Overwrite && items != [] {
        HoldsRest(storage[..], length, itemSize, first, items);
        kept := items[1..];
      }
      HoldsFront(storage[..], length, itemSize, first, kept, item);
      SlotBack(Before(first, length), length, itemSize);
      CopyIn(readFrom, item);
      first := Before(first, length);
      items := [item] + kept;
      readFrom := readFrom - itemSize;
      if readFrom < 0 {
        readFrom := storage.Length - itemSize;
      }
    }

    /** prvCopyDataFromQueue. */
    method CopyDataFromQueue() returns (item: seq<Byte>)
      requires Valid() && messagesWaiting > 0
      modifies this`readFrom
      ensures item == items[0]
      ensures itemSize > 0 ==> readFrom == first * itemSize
      ensures itemSize == 0 ==> readFrom == old(readFrom)
    {
      if itemSize != 0 {
        SlotOn(Before(first, length), length, itemSize);
        FirstItem(storage[..], length, itemSize, first, items);
        readFrom := readFrom + itemSize;
        if readFrom >= storage.Length {
          readFrom := 0;
        }
        item := storage[readFrom..readFrom + itemSize];
      } else {
        item := [];
      }
    }

    /** xQueueGenericSend, where the task need not block. */
    method Send(item: seq<Byte>, position: Position) returns (ok: bool)
      requires Valid() && |item| == itemSize && (position == Overwrite ==> length == 1)
      modifies this, storage
      ensures Valid() && (ok <==> old(messagesWaiting) < length || position == Overwrite)
      ensures !ok ==> items == old(items)
      ensures ok && itemSize > 0 ==> items == Sent(old(items), item, position)
      ensures ok && itemSize > 0 && position == Back ==> items == old(items) + [item]
      ensures ok && itemSize > 0 && position == Front ==> items == [item] + old(items)
      ensures ok && itemSize > 0 && position == Overwrite ==> items == [item]
      ensures ok && itemSize == 0 ==> items == old(items) + [[]]
    {
      ok := messagesWaiting < length || position == Overwrite;
      if ok {
        CopyDataToQueue(item, position);
      }
    }

    /** xQueueReceive, where the task need not block. */
    method Receive() returns (item: Option<seq<Byte>>)
      requires Valid()
      modifies this
      ensures Valid()
      ensures old(items) == [] ==> item == None && items == []
      ensures old(items) != [] ==> item == Some(old(items)[0]) && items == old(items)[1..]
    {
      item := None;
      if messagesWaiting > 0 {
        var data := CopyDataFromQueue();
        TakeFirst();
        item := Some(data);
        messagesWaiting := messagesWaiting - 1;
      }
    }

    ghost method TakeFirst()
      requires items != [] && length >= 1 && storage.Length == length * itemSize
      requires itemSize > 0 ==>
                 && Holds(storage[..], length, itemSize, first, items) && readFrom == first * itemSize
                 && writeTo == Slot(first + |items|, length) * itemSize
      modifies this`items, this`first
      ensures items == old(items)[1..]
      ensures itemSize > 0 ==> Placed(storage[..], length, itemSize, readFrom, writeTo, first, items)
    {
      if itemSize > 0 {
        HoldsRest(storage[..], length, itemSize, first, items);
        first := Slot(first + 1, length);
      }
      items := items[1..];
    }

    /** xQueuePeek, where the task need not block. */
    method Peek() returns (item: Option<seq<Byte>>)
      requires Valid()
      modifies this`readFrom
      ensures Valid() && item == if items == [] then None else Some(items[0])
    {
      item := None;
      if messagesWaiting > 0 {
        var original := readFrom;
        var data := CopyDataFromQueue();
        item := Some(data);
        readFrom := original;
      }
    }
  }

  /** A send keeps the queue within its length if, and only if, the items have a
      size or it is not an overwrite of a full queue. */
  lemma SendWithinLength(items: seq<seq<Byte>>, length: nat, itemSize: nat, item: seq<Byte>, position: Position)
    requires |items| <= length && length >= 1 && (position == Overwrite ==> length == 1)
    requires |items| < length || position == Overwrite
    ensures var after := if itemSize > 0 then Sent(items, item, position) else items + [item];
            |after| <= length <==> itemSize > 0 || |items| < length
  {
  }

  /** Overwriting a full queue of items without a size makes it hold two, one
      more than its length. */
  method OverwriteTwice() returns (queue: ByteQueue)
    ensures queue.length == 1 && queue.messagesWaiting == 2
  {
    queue := new ByteQueue(1, 0);
    var first := queue.Send([], Overwrite);
    var second := queue.Send([], Overwrite);
  }
}
