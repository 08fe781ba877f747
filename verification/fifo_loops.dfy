/**
 * The item-by-item copy loops of fifo/cy_fifo.c, written as the C writes
 * them (a running count, an offset bumped and reset to zero at the
 * capacity, the item count adjusted per item), each shown to compute
 * exactly the buffer operation of module Fifo.
 */
module FifoLoops {
  import opened Fifo

  /** The body of cy_fifo_write once admitted: one item copy per iteration. */
  method CopyIn<T>(f: Fifo<T>, items: seq<T>) returns (r: Fifo<T>)
    requires Valid(f) && f.numItems + |items| <= f.capacity
    ensures r == PutAll(f, items)
  {
    r := f;
    var count: nat := |items|;
    var next := 0;
    while count > 0
      invariant 0 <= next <= |items| && count == |items| - next
      invariant Valid(r) && r.numItems + count <= r.capacity
      invariant PutAll(r, items[next..]) == PutAll(f, items)
    {
      assert items[next..][1..] == items[next + 1..];
      ghost var stepped := PutOne(r, items[next]);
      var writeOffset := r.writeOffset + 1;
      if writeOffset >= r.capacity {
        writeOffset := 0;
      }
      r := r.(pool := r.pool[r.writeOffset := items[next]], writeOffset := writeOffset, numItems := r.numItems + 1);
      next := next + 1;
      count := count - 1;
      assert r == stepped;
    }
  }

  /** cy_fifo_write: admission test, then the copy loop. */
  method WriteCopy<T>(f: Fifo<T>, items: seq<T>) returns (r: Fifo<T>, status: Status)
    requires Valid(f)
    ensures r == Write(f, items).0 && status == Write(f, items).1
  {
    if f.capacity - f.numItems >= |items| {
      r := CopyIn(f, items);
      status := Ok;
    } else {
      r, status := f, Overflow;
    }
  }

  /** The body of cy_fifo_read once admitted: one item copy per iteration. */
  method CopyOut<T>(f: Fifo<T>, count: nat) returns (r: Fifo<T>, out: seq<T>)
    requires Valid(f) && count <= f.numItems
    ensures r == TakeAll(f, count).0 && out == TakeAll(f, count).1
  {
    r := f;
    var left: nat := count;
    out := [];
    while left > 0
      invariant left <= count
      invariant r == f.(readOffset := Slot(f.readOffset, count - left, f.capacity),
                        numItems := f.numItems - (count - left))
      invariant out == Contents(f)[..count - left]
    {
      ghost var done := count - left;
      out := out + [r.pool[r.readOffset]];
      left := left - 1;
      var readOffset := r.readOffset + 1;
      if readOffset >= r.capacity {
        readOffset := 0;
      }
      r := r.(readOffset := readOffset, numItems := r.numItems - 1);
      SlotShift(f.readOffset, done, 1, f.capacity);
    }
  }

  /** cy_fifo_read: admission test, then the copy loop. */
  method ReadCopy<T>(f: Fifo<T>, count: nat) returns (r: Fifo<T>, out: seq<T>, status: Status)
    requires Valid(f)
    ensures r == Read(f, count).0 && out == Read(f, count).1 && status == Read(f, count).2
  {
    if f.numItems >= count {
      r, out := CopyOut(f, count);
      status := Ok;
    } else {
      r, out, status := f, [], Underflow;
    }
  }

  /** The body of cy_fifo_read_silent over a private copy of the read offset. */
  method PeekCopy<T>(f: Fifo<T>, count: nat) returns (out: seq<T>)
    requires Valid(f) && count <= f.capacity
    ensures out == Peek(f, f.readOffset, count)
  {
    var readOffset: nat := f.readOffset;
    var left: nat := count;
    out := [];
    while left > 0
      invariant readOffset < f.capacity && left <= count
      invariant out + Peek(f, readOffset, left) == Peek(f, f.readOffset, count)
    {
      var x, next := f.pool[readOffset], Next(readOffset, f.capacity);
      var rest := Peek(f, next, left - 1);
      assert Peek(f, readOffset, left) == [x] + rest;
      assert (out + [x]) + rest == out + ([x] + rest);
      out := out + [x];
      left := left - 1;
      readOffset := readOffset + 1;
      if readOffset >= f.capacity {
        readOffset := 0;
      }
      assert readOffset == next;
    }
    assert Peek(f, readOffset, 0) == [];
  }

  /** cy_fifo_read_silent: admission test, then the non-consuming copy loop. */
  method ReadSilentCopy<T>(f: Fifo<T>, count: nat) returns (out: seq<T>, status: Status)
    requires Valid(f)
    ensures out == ReadSilent(f, count).0 && status == ReadSilent(f, count).1
  {
    if f.numItems >= count {
      out := PeekCopy(f, count);
      status := Ok;
    } else {
      out, status := [], Underflow;
    }
  }
}
