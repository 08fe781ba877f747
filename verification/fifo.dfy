/**
 * The fixed-capacity circular store of fixed-size items of fifo/cy_fifo.c.
 *
 * The buffer is a value: every operation takes the buffer and returns the new
 * one together with its status code. The caller's byte pool is seen as
 * `capacity` item slots; slot `i` is the `item_size` bytes at offset
 * `i * item_size`. The abstract view of a buffer is `Contents`, the items
 * between the read and the write offsets in the order they were written.
 */
module Fifo {
  import opened Results
  import opened Seqs

  /** The result codes of cy_fifo.h; `Ok` is CY_RSLT_SUCCESS. */
  datatype Status = Ok | BadArg | Overflow | Underflow

  /** The numeric value of each result code (cy_fifo.h). */
  function StatusCode(s: Status): (code: nat)
    ensures code == 0 <==> s == Ok
  {
    match s
    case Ok => 0
    case BadArg => 2
    case Overflow => 4
    case Underflow => 5
  }

  /** The cy_fifo_t object: pool, sizes in bytes, capacity in items, offsets and count. */
  datatype Fifo<T> = Fifo(
    pool: seq<T>,
    poolSize: nat,
    itemSize: nat,
    capacity: nat,
    readOffset: nat,
    writeOffset: nat,
    numItems: nat)

  /** The invariant every operation keeps once initialisation has succeeded. */
  predicate Valid<T>(f: Fifo<T>) {
    && f.itemSize > 0
    && f.capacity == f.poolSize / f.itemSize
    && f.capacity > 0
    && |f.pool| == f.capacity
    && f.numItems <= f.capacity
    && f.readOffset < f.capacity
    && f.writeOffset < f.capacity
    && (f.readOffset + f.numItems) % f.capacity == f.writeOffset
  }

  /** Two buffers over the same pool geometry. */
  predicate SameShape<T>(f: Fifo<T>, g: Fifo<T>) {
    f.poolSize == g.poolSize && f.itemSize == g.itemSize && f.capacity == g.capacity
  }

  /**
   * The slot `k` places after `base`. Every `%` the buffer performs is of a
   * value below `2 * cap`, so a single conditional subtraction computes it.
   */
  function Slot(base: nat, k: nat, cap: nat): (s: nat)
    requires base < cap && k <= cap
    ensures s < cap
  {
    if base + k < cap then base + k else base + k - cap
  }

  lemma SlotIsMod(base: nat, k: nat, cap: nat)
    requires base < cap && k <= cap
    ensures Slot(base, k, cap) == (base + k) % cap
  {
    if base + k < cap {
      ModBelow(base + k, cap);
    } else {
      ModShift(base + k, cap);
    }
  }

  /** A value below the modulus is its own remainder. */
  lemma ModBelow(x: nat, cap: nat)
    requires x < cap
    ensures x % cap == x
  {
  }

  /** A value in [cap, 2 * cap) leaves x - cap. */
  lemma ModShift(x: nat, cap: nat)
    requires cap <= x < 2 * cap
    ensures x % cap == x - cap
  {
  }

  /** The slot index that follows `offset`, as the copy loops compute it. */
  function Next(offset: nat, cap: nat): (r: nat)
    requires offset < cap
    ensures r < cap && r == Slot(offset, 1, cap)
  {
    if offset + 1 >= cap then 0 else offset + 1
  }

  /** Stepping `m` slots and then `k` more is stepping `m + k` slots. */
  lemma SlotShift(base: nat, m: nat, k: nat, cap: nat)
    requires base < cap && m + k <= cap
    ensures Slot(Slot(base, m, cap), k, cap) == Slot(base, m + k, cap)
  {
  }

  /** Fewer than `cap` steps apart, two slots differ. */
  lemma SlotDistinct(base: nat, j: nat, k: nat, cap: nat)
    requires base < cap && j < k <= cap && k - j < cap
    ensures Slot(base, j, cap) != Slot(base, k, cap)
  {
  }

  lemma WriteOffsetIsSlot<T>(f: Fifo<T>)
    requires Valid(f)
    ensures f.writeOffset == Slot(f.readOffset, f.numItems, f.capacity)
  {
    SlotIsMod(f.readOffset, f.numItems, f.capacity);
  }

  /** The items held, oldest first. */
  function Contents<T>(f: Fifo<T>): (c: seq<T>)
    requires Valid(f)
    ensures |c| == f.numItems
  {
    seq(f.numItems, k requires 0 <= k < f.numItems => f.pool[Slot(f.readOffset, k, f.capacity)])
  }

  /**
   * cy_fifo_init_static. `pool` is None for a null pointer; when present it
   * holds at least the slots the declared size describes.
   */
  function Init<T>(pool: Option<seq<T>>, poolSize: nat, itemSize: nat): (r: Result<Fifo<T>, Status>)
    requires pool.Some? && itemSize > 0 ==> |pool.value| >= poolSize / itemSize
    ensures r.Success? <==> pool.Some? && poolSize != 0 && itemSize != 0 && poolSize / itemSize != 0
    ensures r.Failure? ==> r.error == BadArg
    ensures r.Success? ==>
      && Valid(r.value)
      && r.value.capacity == poolSize / itemSize
      && r.value.poolSize == poolSize && r.value.itemSize == itemSize
      && r.value.readOffset == 0 && r.value.writeOffset == 0
      && Contents(r.value) == []
      && r.value.pool == pool.value[..poolSize / itemSize]
  {
    if pool.Some? && poolSize != 0 && itemSize != 0 then
      var size := poolSize / itemSize;
      if size == 0 then Failure(BadArg)
      else Success(Fifo(pool.value[..size], poolSize, itemSize, size, 0, 0, 0))
    else
      Failure(BadArg)
  }

  /** One iteration of the copy loop of cy_fifo_write: store, advance, count. */
  function PutOne<T>(f: Fifo<T>, x: T): (r: Fifo<T>)
    requires Valid(f) && f.numItems < f.capacity
    ensures Valid(r) && SameShape(f, r)
    ensures Contents(r) == Contents(f) + [x]
    ensures r.readOffset == f.readOffset && r.numItems == f.numItems + 1
  {
    WriteOffsetIsSlot(f);
    var r := f.(pool := f.pool[f.writeOffset := x],
                writeOffset := Next(f.writeOffset, f.capacity),
                numItems := f.numItems + 1);
    SlotShift(f.readOffset, f.numItems, 1, f.capacity);
    SlotIsMod(f.readOffset, f.numItems + 1, f.capacity);
    forall k | 0 <= k < f.numItems
      ensures Slot(f.readOffset, k, f.capacity) != f.writeOffset
    {
      SlotDistinct(f.readOffset, k, f.numItems, f.capacity);
    }
    assert Contents(r) == Contents(f) + [x];
    r
  }

  /** The whole copy loop of cy_fifo_write, one item after another. */
  function PutAll<T>(f: Fifo<T>, items: seq<T>): (r: Fifo<T>)
    requires Valid(f) && f.numItems + |items| <= f.capacity
    ensures Valid(r) && SameShape(f, r)
    ensures Contents(r) == Contents(f) + items
    ensures r.readOffset == f.readOffset && r.numItems == f.numItems + |items|
    decreases |items|
  {
    if |items| == 0 then f
    else
      var r := PutAll(PutOne(f, items[0]), items[1..]);
      assert Contents(f) + [items[0]] + items[1..] == Contents(f) + items;
      r
  }

  /** After `m` items are appended the write offset has moved `m` slots on, modulo the capacity. */
  lemma WriteOffsetAdvances<T>(f: Fifo<T>, r: Fifo<T>, m: nat)
    requires Valid(f) && Valid(r) && SameShape(f, r)
    requires r.readOffset == f.readOffset && r.numItems == f.numItems + m
    ensures r.writeOffset == (f.writeOffset + m) % f.capacity
  {
    WriteOffsetIsSlot(f);
    WriteOffsetIsSlot(r);
    SlotShift(f.readOffset, f.numItems, m, f.capacity);
    SlotIsMod(f.writeOffset, m, f.capacity);
  }

  /**
   * cy_fifo_write: all-or-nothing admission, then the items are appended
   * behind the items already held.
   */
  function Write<T>(f: Fifo<T>, items: seq<T>): (r: (Fifo<T>, Status))
    requires Valid(f)
    ensures Valid(r.0) && SameShape(f, r.0)
    ensures r.1 == Ok || r.1 == Overflow
    ensures r.1 == Ok <==> f.capacity - f.numItems >= |items|
    ensures r.1 == Ok ==>
      && Contents(r.0) == Contents(f) + items
      && r.0.numItems == f.numItems + |items|
      && r.0.writeOffset == (f.writeOffset + |items|) % f.capacity
      && r.0.readOffset == f.readOffset
    ensures r.1 == Overflow ==> r.0 == f
  {
    if f.capacity - f.numItems >= |items| then
      var g := PutAll(f, items);
      WriteOffsetAdvances(f, g, |items|);
      (g, Ok)
    else
      (f, Overflow)
  }

  /**
   * cy_fifo_write_update: the admission test and bookkeeping of a write,
   * publishing slots the caller has already filled in place.
   */
  function WriteUpdate<T>(f: Fifo<T>, count: nat): (r: (Fifo<T>, Status))
    requires Valid(f)
    ensures Valid(r.0) && SameShape(f, r.0) && r.0.pool == f.pool
    ensures r.1 == Ok || r.1 == Overflow
    ensures r.1 == Ok <==> f.capacity - f.numItems >= count
    ensures r.1 == Ok ==>
      && r.0.numItems == f.numItems + count
      && r.0.readOffset == f.readOffset
      && Contents(f) <= Contents(r.0)
    ensures r.1 == Overflow ==> r.0 == f
  {
    if f.capacity - f.numItems >= count then
      WriteOffsetIsSlot(f);
      SlotIsMod(f.writeOffset, count, f.capacity);
      SlotShift(f.readOffset, f.numItems, count, f.capacity);
      SlotIsMod(f.readOffset, f.numItems + count, f.capacity);
      var r := f.(writeOffset := (f.writeOffset + count) % f.capacity, numItems := f.numItems + count);
      (r, Ok)
    else
      (f, Overflow)
  }

  /** One iteration of the copy loop of cy_fifo_read: fetch, advance, count. */
  function TakeOne<T>(f: Fifo<T>): (r: (Fifo<T>, T))
    requires Valid(f) && f.numItems > 0
    ensures Valid(r.0) && SameShape(f, r.0)
    ensures r.1 == Contents(f)[0] && Contents(r.0) == Contents(f)[1..]
    ensures r.0.pool == f.pool && r.0.writeOffset == f.writeOffset
    ensures r.0.readOffset == Next(f.readOffset, f.capacity) && r.0.numItems == f.numItems - 1
  {
    WriteOffsetIsSlot(f);
    var r := f.(readOffset := Next(f.readOffset, f.capacity), numItems := f.numItems - 1);
    SlotShift(f.readOffset, 1, f.numItems - 1, f.capacity);
    SlotIsMod(r.readOffset, r.numItems, f.capacity);
    forall k | 0 <= k < r.numItems
      ensures Slot(r.readOffset, k, f.capacity) == Slot(f.readOffset, k + 1, f.capacity)
    {
      SlotShift(f.readOffset, 1, k, f.capacity);
    }
    assert Contents(r) == Contents(f)[1..];
    (r, f.pool[f.readOffset])
  }

  /** The whole copy loop of cy_fifo_read. */
  function TakeAll<T>(f: Fifo<T>, count: nat): (r: (Fifo<T>, seq<T>))
    requires Valid(f) && count <= f.numItems
    ensures Valid(r.0) && SameShape(f, r.0)
    ensures r.1 == Contents(f)[..count] && Contents(r.0) == Contents(f)[count..]
    ensures r.0.pool == f.pool && r.0.writeOffset == f.writeOffset
    ensures r.0.numItems == f.numItems - count
    ensures r.0.readOffset == Slot(f.readOffset, count, f.capacity)
    decreases count
  {
    if count == 0 then (f, [])
    else
      var (g, x) := TakeOne(f);
      var (h, xs) := TakeAll(g, count - 1);
      SlotShift(f.readOffset, 1, count - 1, f.capacity);
      assert [x] + xs == Contents(f)[..count];
      (h, [x] + xs)
  }

  /** cy_fifo_read: all-or-nothing removal of the `count` oldest items. */
  function Read<T>(f: Fifo<T>, count: nat): (r: (Fifo<T>, seq<T>, Status))
    requires Valid(f)
    ensures Valid(r.0) && SameShape(f, r.0) && r.0.pool == f.pool
    ensures r.2 == Ok || r.2 == Underflow
    ensures r.2 == Ok <==> f.numItems >= count
    ensures r.2 == Ok ==>
      && r.1 == Contents(f)[..count]
      && Contents(r.0) == Contents(f)[count..]
      && r.0.numItems == f.numItems - count
      && r.0.readOffset == (f.readOffset + count) % f.capacity
      && r.0.writeOffset == f.writeOffset
    ensures r.2 == Underflow ==> r.0 == f && r.1 == []
  {
    if f.numItems >= count then
      var (g, xs) := TakeAll(f, count);
      SlotIsMod(f.readOffset, count, f.capacity);
      (g, xs, Ok)
    else
      (f, [], Underflow)
  }

  /** The copy loop of cy_fifo_read_silent, walking a private copy of the read offset. */
  function Peek<T>(f: Fifo<T>, offset: nat, count: nat): (r: seq<T>)
    requires Valid(f) && offset < f.capacity && count <= f.capacity
    ensures |r| == count
    ensures forall k :: 0 <= k < count ==> r[k] == f.pool[Slot(offset, k, f.capacity)]
    decreases count
  {
    if count == 0 then []
    else
      var rest := Peek(f, Next(offset, f.capacity), count - 1);
      forall k | 1 <= k < count
        ensures Slot(Next(offset, f.capacity), k - 1, f.capacity) == Slot(offset, k, f.capacity)
      {
        SlotShift(offset, 1, k - 1, f.capacity);
      }
      [f.pool[offset]] + rest
  }

  /** cy_fifo_read_silent: the items a read would return, with the buffer left as it was. */
  function ReadSilent<T>(f: Fifo<T>, count: nat): (r: (seq<T>, Status))
    requires Valid(f)
    ensures r.1 == Ok || r.1 == Underflow
    ensures r.1 == Ok <==> f.numItems >= count
    ensures r.1 == Ok ==> r.0 == Contents(f)[..count]
    ensures r.1 == Underflow ==> r.0 == []
  {
    if f.numItems >= count then (Peek(f, f.readOffset, count), Ok)
    else ([], Underflow)
  }

  /** cy_fifo_read_update: the admission test and bookkeeping of a read, without copying. */
  function ReadUpdate<T>(f: Fifo<T>, count: nat): (r: (Fifo<T>, Status))
    requires Valid(f)
    ensures Valid(r.0) && SameShape(f, r.0) && r.0.pool == f.pool
    ensures r.1 == Ok || r.1 == Underflow
    ensures r.1 == Ok <==> f.numItems >= count
    ensures r.1 == Ok ==>
      && Contents(r.0) == Contents(f)[count..]
      && r.0.numItems == f.numItems - count
      && r.0.writeOffset == f.writeOffset
    ensures r.1 == Underflow ==> r.0 == f
  {
    if f.numItems >= count then
      WriteOffsetIsSlot(f);
      SlotIsMod(f.readOffset, count, f.capacity);
      var r := f.(readOffset := (f.readOffset + count) % f.capacity, numItems := f.numItems - count);
      SlotShift(f.readOffset, count, f.numItems - count, f.capacity);
      SlotIsMod(r.readOffset, r.numItems, f.capacity);
      forall k | 0 <= k < r.numItems
        ensures Slot(r.readOffset, k, f.capacity) == Slot(f.readOffset, count + k, f.capacity)
      {
        SlotShift(f.readOffset, count, k, f.capacity);
      }
      assert Contents(r) == Contents(f)[count..];
      (r, Ok)
    else
      (f, Underflow)
  }

  /** cy_fifo_is_full: no further item can be admitted. */
  function IsFull<T>(f: Fifo<T>): (full: bool)
    requires Valid(f)
    ensures full <==> |Contents(f)| == f.capacity
  {
    f.capacity == f.numItems
  }

  /** cy_fifo_is_empty. */
  function IsEmpty<T>(f: Fifo<T>): (empty: bool)
    requires Valid(f)
    ensures empty <==> Contents(f) == []
  {
    f.numItems == 0
  }

  /** cy_fifo_get_count. */
  function GetCount<T>(f: Fifo<T>): (n: nat)
    requires Valid(f)
    ensures n == |Contents(f)|
  {
    f.numItems
  }

  /** cy_fifo_clear: both offsets and the count back to zero; pool and geometry untouched. */
  function Clear<T>(f: Fifo<T>): (r: Fifo<T>)
    requires Valid(f)
    ensures Valid(r) && SameShape(f, r) && r.pool == f.pool
    ensures Contents(r) == []
    ensures r.readOffset == 0 && r.writeOffset == 0
  {
    f.(writeOffset := 0, readOffset := 0, numItems := 0)
  }

  /**
   * A silent read followed by a read update of the same count returns the
   * same items, the same status and the same buffer as one read.
   */
  lemma PeekThenCommitIsRead<T>(f: Fifo<T>, count: nat)
    requires Valid(f)
    ensures ReadSilent(f, count).0 == Read(f, count).1
    ensures ReadSilent(f, count).1 == Read(f, count).2
    ensures ReadUpdate(f, count).0 == Read(f, count).0
    ensures ReadUpdate(f, count).1 == Read(f, count).2
  {
    if f.numItems >= count {
      SlotIsMod(f.readOffset, count, f.capacity);
    }
  }

  /**
   * The in-place fast path: storing the items into the slots a write would
   * use and then publishing them with a write update leaves the same buffer
   * as a write of those items.
   */
  lemma FillThenWriteUpdateIsWrite<T>(f: Fifo<T>, items: seq<T>)
    requires Valid(f) && f.capacity - f.numItems >= |items|
    ensures Write(f, items).0 == WriteUpdate(f.(pool := PutAll(f, items).pool), |items|).0
    ensures WriteUpdate(f.(pool := PutAll(f, items).pool), |items|).1 == Ok
  {
    var g := PutAll(f, items);
    var h := f.(pool := g.pool);
    assert Valid(h);
    var u := WriteUpdate(h, |items|).0;
    WriteOffsetIsSlot(u);
    WriteOffsetIsSlot(g);
  }

  /** A buffer is full exactly when a one-item write overflows. */
  lemma FullIffOneItemOverflows<T>(f: Fifo<T>, x: T)
    requires Valid(f)
    ensures IsFull(f) <==> Write(f, [x]).1 == Overflow
  {
  }

  /** A buffer is empty exactly when a one-item read underflows. */
  lemma EmptyIffOneItemUnderflows<T>(f: Fifo<T>)
    requires Valid(f)
    ensures IsEmpty(f) <==> Read(f, 1).2 == Underflow
  {
  }

  /** The concatenation of a list of batches. */
  function Concat<T>(batches: seq<seq<T>>): (r: seq<T>)
    ensures |batches| == 1 ==> r == batches[0]
  {
    if |batches| == 0 then [] else batches[0] + Concat(batches[1..])
  }

  /** The sizes of a list of batches. */
  function Sizes<T>(batches: seq<seq<T>>): (r: seq<nat>)
    ensures |r| == |batches|
    ensures forall i :: 0 <= i < |batches| ==> r[i] == |batches[i]|
  {
    if |batches| == 0 then [] else [|batches[0]|] + Sizes(batches[1..])
  }

  /** Write the batches one after another; the statuses in call order. */
  function WriteBatches<T>(f: Fifo<T>, batches: seq<seq<T>>): (r: (Fifo<T>, seq<Status>))
    requires Valid(f)
    ensures Valid(r.0) && |r.1| == |batches|
    decreases |batches|
  {
    if |batches| == 0 then (f, [])
    else
      var (g, s) := Write(f, batches[0]);
      var (h, ss) := WriteBatches(g, batches[1..]);
      (h, [s] + ss)
  }

  /** Read batches of the given sizes one after another; the batches and statuses in call order. */
  function ReadBatches<T>(f: Fifo<T>, counts: seq<nat>): (r: (Fifo<T>, seq<seq<T>>, seq<Status>))
    requires Valid(f)
    ensures Valid(r.0) && |r.1| == |counts| && |r.2| == |counts|
    decreases |counts|
  {
    if |counts| == 0 then (f, [], [])
    else
      var (g, xs, s) := Read(f, counts[0]);
      var (h, xss, ss) := ReadBatches(g, counts[1..]);
      (h, [xs] + xss, [s] + ss)
  }

  /** Writes that together fit in the free space all succeed and append their items in order. */
  lemma {:induction false} WritesThatFitSucceed<T>(f: Fifo<T>, batches: seq<seq<T>>)
    requires Valid(f) && f.numItems + |Concat(batches)| <= f.capacity
    ensures forall i :: 0 <= i < |batches| ==> WriteBatches(f, batches).1[i] == Ok
    ensures Contents(WriteBatches(f, batches).0) == Contents(f) + Concat(batches)
    decreases |batches|
  {
    if |batches| > 0 {
      var (g, s) := Write(f, batches[0]);
      assert Concat(batches) == batches[0] + Concat(batches[1..]);
      WritesThatFitSucceed(g, batches[1..]);
      AppendAssoc(Contents(f), batches[0], Concat(batches[1..]));
    }
  }

  /** Reads of the written sizes succeed and hand back the batches, oldest first, in order. */
  lemma {:induction false} ReadsReturnBatchesInOrder<T>(f: Fifo<T>, batches: seq<seq<T>>)
    requires Valid(f) && Contents(f) == Concat(batches)
    ensures forall i :: 0 <= i < |batches| ==> ReadBatches(f, Sizes(batches)).2[i] == Ok
    ensures ReadBatches(f, Sizes(batches)).1 == batches
    ensures Contents(ReadBatches(f, Sizes(batches)).0) == []
    decreases |batches|
  {
    if |batches| > 0 {
      var first, rest := batches[0], batches[1..];
      assert Concat(batches) == first + Concat(rest);
      SliceAppend(first, Concat(rest));
      var (g, xs, s) := Read(f, |first|);
      assert xs == first && Contents(g) == Concat(rest);
      var sizes := Sizes(batches);
      assert sizes == [|first|] + Sizes(rest);
      SliceAppend([|first|], Sizes(rest));
      ReadsReturnBatchesInOrder(g, rest);
      var (h, xss, ss) := ReadBatches(g, Sizes(rest));
      assert ReadBatches(f, sizes) == (h, [xs] + xss, [s] + ss);
      forall i | 0 <= i < |batches|
        ensures ([s] + ss)[i] == Ok
      {
        if i > 0 {
          assert ([s] + ss)[i] == ss[i - 1];
        }
      }
      HeadTail(batches);
    }
  }

  /**
   * Round trip: on an empty buffer, writes totalling at most the capacity
   * all succeed and reads of the same sizes return the same batches.
   */
  lemma WriteThenReadRoundTrip<T>(f: Fifo<T>, batches: seq<seq<T>>)
    requires Valid(f) && Contents(f) == [] && |Concat(batches)| <= f.capacity
    ensures forall i :: 0 <= i < |batches| ==> WriteBatches(f, batches).1[i] == Ok
    ensures ReadBatches(WriteBatches(f, batches).0, Sizes(batches)).1 == batches
  {
    WritesThatFitSucceed(f, batches);
    ReadsReturnBatchesInOrder(WriteBatches(f, batches).0, batches);
  }
}
