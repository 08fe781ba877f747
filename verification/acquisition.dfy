/**
 * The motion-sensor side of source/sensor.c: the 128 Hz timer handler that
 * pushes each accelerometer and gyroscope reading into the circular buffer
 * and raises an event every 128 readings, the task that drains one batch,
 * and the pre-processing chain (widening, per-channel Butterworth filter,
 * min-max normalisation, fixed-point conversion) that turns a batch into
 * model input. The IMU, the timer, the event flag and the inference engine
 * are outside the model: readings arrive as parameters and the model input
 * is the result.
 */
module Acquisition {
  import opened Results
  import opened Numeric
  import opened Layout
  import opened Fifo
  import Iir
  import opened Processing
  import opened NnUtils
  import Seqs

  /** Bytes per axis value. */
  const DataWidth: nat := 2

  /** Three accelerometer axes and three gyroscope axes. */
  const NumAxis: nat := 6

  /** Bytes of one full reading. */
  const SampleSize: nat := DataWidth * NumAxis

  /** Readings per inference window. */
  const BatchSize: nat := 128

  /** Bytes per FIFO item: one three-axis half of a reading. */
  const ItemSize: nat := SampleSize / 2

  /** Bytes of FIFO storage: room for two windows. */
  const PoolSize: nat := 2 * BatchSize * SampleSize

  /** Readings per second. */
  const ScanRate: nat := 128

  /** Timer clock in Hz. */
  const TimerFrequency: nat := 100000

  /** Timer ticks between readings (integer division). */
  const TimerPeriod: nat := TimerFrequency / ScanRate

  /** Normalisation bounds: the int16 range widened by one at the top. */
  const MaxDataSample: real := 32768.0
  const MinDataSample: real := -32768.0

  /** Values in one window: BatchSize rows of NumAxis channels. */
  const Window: nat := BatchSize * NumAxis

  /** FIFO items drained per window: two per reading. */
  const WindowItems: nat := BatchSize * DataWidth

  /** The sizes follow from the declared constants. */
  lemma Geometry()
    ensures SampleSize == 12 && ItemSize == 6 && PoolSize == 3072
    ensures PoolSize / ItemSize == 2 * WindowItems
    ensures TimerPeriod == 781 && Window == 768 && WindowItems == 256
  {
  }

  /** One three-axis sample as the driver stores it. */
  datatype Axes = Axes(x: Int16, y: Int16, z: Int16)

  /** One read of the IMU: accelerometer then gyroscope. */
  datatype Reading = Reading(accel: Axes, gyro: Axes)

  /** The six channels of a reading in buffer order. */
  function Row(r: Reading): (row: seq<Int16>)
    ensures |row| == NumAxis
    ensures row[..3] == Triple(r.accel) && row[3..] == Triple(r.gyro)
  {
    [r.accel.x, r.accel.y, r.accel.z, r.gyro.x, r.gyro.y, r.gyro.z]
  }

  /** The three values of one sample, x first. */
  function Triple(a: Axes): seq<Int16>
  {
    [a.x, a.y, a.z]
  }

  /** The FIFO items a run of readings becomes: accelerometer item, then gyroscope item. */
  function Items(rs: seq<Reading>): (items: seq<Axes>)
    ensures |items| == 2 * |rs|
    ensures forall i :: 0 <= i < |rs| ==> items[2 * i] == rs[i].accel && items[2 * i + 1] == rs[i].gyro
  {
    if rs == [] then []
    else Items(rs[..|rs| - 1]) + [rs[|rs| - 1].accel, rs[|rs| - 1].gyro]
  }

  /** The int16 values a run of FIFO items occupies in memory: x, y, z per item. */
  function Samples(items: seq<Axes>): (s: seq<Int16>)
    ensures |s| == 3 * |items|
    ensures forall j :: 0 <= j < |items| ==>
      s[3 * j] == items[j].x && s[3 * j + 1] == items[j].y && s[3 * j + 2] == items[j].z
  {
    if items == [] then []
    else
      var last := items[|items| - 1];
      Samples(items[..|items| - 1]) + [last.x, last.y, last.z]
  }

  /** Readings pushed as items and read back as int16 values lie one reading per row. */
  lemma WindowRows(rs: seq<Reading>)
    ensures |Samples(Items(rs))| == NumAxis * |rs|
    ensures forall i, c :: 0 <= i < |rs| && 0 <= c < NumAxis ==>
      Index(i, c, NumAxis) < |Samples(Items(rs))| && Samples(Items(rs))[Index(i, c, NumAxis)] == Row(rs[i])[c]
  {
    forall i, c | 0 <= i < |rs| && 0 <= c < NumAxis
      ensures Index(i, c, NumAxis) < |Samples(Items(rs))| && Samples(Items(rs))[Index(i, c, NumAxis)] == Row(rs[i])[c]
    {
      WindowEntry(rs, i, c);
    }
  }

  /** One entry of WindowRows: channel c of reading i is the (c mod 3)-th value of item 2i or 2i+1. */
  lemma WindowEntry(rs: seq<Reading>, i: nat, c: nat)
    requires i < |rs| && c < NumAxis
    ensures Index(i, c, NumAxis) < |Samples(Items(rs))| && Samples(Items(rs))[Index(i, c, NumAxis)] == Row(rs[i])[c]
  {
    var items := Items(rs);
    var at := Index(i, c, NumAxis);
    if c < 3 {
      assert items[2 * i] == rs[i].accel;
      SampleAt(items, 2 * i, c, at);
      assert Row(rs[i])[c] == Row(rs[i])[..3][c];
    } else {
      assert items[2 * i + 1] == rs[i].gyro;
      SampleAt(items, 2 * i + 1, c - 3, at);
      assert Row(rs[i])[c] == Row(rs[i])[3..][c - 3];
    }
  }

  /** Value k of item j sits at position 3j + k. */
  lemma SampleAt(items: seq<Axes>, j: nat, k: nat, at: nat)
    requires j < |items| && k < 3 && at == 3 * j + k
    ensures at < |Samples(items)| && Samples(items)[at] == Triple(items[j])[k]
  {
    var s := Samples(items);
    assert s[3 * j] == items[j].x && s[3 * j + 1] == items[j].y && s[3 * j + 2] == items[j].z;
  }

  /**
   * The state the timer handler works on: the shared buffer, its static
   * reading counter, the event flag it raises, and whether a failed read
   * stopped the system.
   */
  datatype Handler = Handler(fifo: Fifo<Axes>, location: nat, eventSet: bool, halted: bool)

  /**
   * sensor_init's buffer set-up: the byte pool of PoolSize bytes in items of
   * ItemSize bytes, with the counter at zero and no event pending.
   */
  function Start(pool: seq<Axes>): (r: Result<Handler, Status>)
    requires |pool| >= PoolSize / ItemSize
    ensures r.Success?
    ensures Valid(r.value.fifo) && r.value.fifo.capacity == 2 * WindowItems && Contents(r.value.fifo) == []
    ensures r.value.location == 0 && !r.value.eventSet && !r.value.halted
  {
    match Init(Some(pool), PoolSize, ItemSize)
    case Success(f) => Success(Handler(f, 0, false, false))
    case Failure(e) => Failure(e)
  }

  /**
   * sensor_interrupt_handler. A failed read (None) stops the system. A good
   * read is written as two one-item writes whose status is not looked at,
   * so an item that does not fit is dropped; the counter then advances and
   * at BatchSize returns to zero and raises the event.
   */
  function Tick(h: Handler, reading: Option<Reading>): (r: Handler)
    requires Valid(h.fifo)
    ensures Valid(r.fifo) && SameShape(h.fifo, r.fifo)
    ensures h.halted ==> r == h
    ensures !h.halted && reading.None? ==> r == h.(halted := true)
    ensures !h.halted && reading.Some? ==>
      && !r.halted
      && Contents(r.fifo) == Contents(h.fifo) +
           (if h.fifo.numItems + 2 <= h.fifo.capacity then [reading.value.accel, reading.value.gyro]
            else if h.fifo.numItems + 1 == h.fifo.capacity then [reading.value.accel]
            else [])
      && (h.location < BatchSize ==> r.location == (h.location + 1) % BatchSize)
      && (r.eventSet <==> h.eventSet || h.location + 1 == BatchSize)
  {
    if h.halted then h
    else if reading.None? then h.(halted := true)
    else
      var (withAccel, _) := Write(h.fifo, [reading.value.accel]);
      var (withGyro, _) := Write(withAccel, [reading.value.gyro]);
      var location := h.location + 1;
      if location == BatchSize then Handler(withGyro, 0, true, false)
      else Handler(withGyro, location, h.eventSet, false)
  }

  /** The handler run over a sequence of read outcomes, in order. */
  function Ticks(h: Handler, outcomes: seq<Option<Reading>>): (r: Handler)
    requires Valid(h.fifo)
    ensures Valid(r.fifo) && SameShape(h.fifo, r.fifo)
    decreases |outcomes|
  {
    if outcomes == [] then h
    else Tick(Ticks(h, outcomes[..|outcomes| - 1]), outcomes[|outcomes| - 1])
  }

  /** Every read succeeding. */
  function Good(rs: seq<Reading>): (outcomes: seq<Option<Reading>>)
    ensures |outcomes| == |rs| && forall i :: 0 <= i < |rs| ==> outcomes[i] == Some(rs[i])
  {
    seq(|rs|, i requires 0 <= i < |rs| => Some(rs[i]))
  }

  /** The counter never leaves [0, BatchSize) once it starts there. */
  lemma {:induction false} CounterStaysBelowBatch(h: Handler, outcomes: seq<Option<Reading>>)
    requires Valid(h.fifo) && h.location < BatchSize
    ensures Ticks(h, outcomes).location < BatchSize
    decreases |outcomes|
  {
    if outcomes != [] {
      CounterStaysBelowBatch(h, outcomes[..|outcomes| - 1]);
    }
  }

  /**
   * Up to one batch of good readings from a counter at zero, with room for
   * them: every item is stored in order, the counter is the number of
   * readings modulo BatchSize, and the event is pending afterwards exactly
   * when it was pending before or the batch is complete (nothing here
   * clears it).
   */
  lemma {:induction false} TicksFill(h: Handler, rs: seq<Reading>)
    requires Valid(h.fifo) && !h.halted && h.location == 0
    requires |rs| <= BatchSize && h.fifo.numItems + 2 * |rs| <= h.fifo.capacity
    ensures !Ticks(h, Good(rs)).halted
    ensures Contents(Ticks(h, Good(rs)).fifo) == Contents(h.fifo) + Items(rs)
    ensures Ticks(h, Good(rs)).location == if |rs| == BatchSize then 0 else |rs|
    ensures Ticks(h, Good(rs)).eventSet <==> h.eventSet || |rs| == BatchSize
    decreases |rs|
  {
    if rs != [] {
      TicksFill(h, rs[..|rs| - 1]);
      TicksFillStep(h, rs);
    }
  }

  /** TicksFill's step: one more good reading after the first n. */
  lemma TicksFillStep(h: Handler, rs: seq<Reading>)
    requires Valid(h.fifo) && !h.halted && h.location == 0
    requires 0 < |rs| <= BatchSize && h.fifo.numItems + 2 * |rs| <= h.fifo.capacity
    requires var mid := Ticks(h, Good(rs[..|rs| - 1]));
      && !mid.halted && (mid.eventSet <==> h.eventSet) && mid.location == |rs| - 1
      && Contents(mid.fifo) == Contents(h.fifo) + Items(rs[..|rs| - 1])
    ensures !Ticks(h, Good(rs)).halted
    ensures Contents(Ticks(h, Good(rs)).fifo) == Contents(h.fifo) + Items(rs)
    ensures Ticks(h, Good(rs)).location == if |rs| == BatchSize then 0 else |rs|
    ensures Ticks(h, Good(rs)).eventSet <==> h.eventSet || |rs| == BatchSize
  {
    var n := |rs| - 1;
    var mid := Ticks(h, Good(rs[..n]));
    assert Good(rs)[..n] == Good(rs[..n]);
    assert Ticks(h, Good(rs)) == Tick(mid, Some(rs[n]));
    TickFits(mid, rs[n], n);
    var before, items, pair := Contents(h.fifo), Items(rs[..n]), [rs[n].accel, rs[n].gyro];
    assert Items(rs) == items + pair;
    assert Contents(Ticks(h, Good(rs)).fifo) == (before + items) + pair;
    Seqs.AppendAssoc(before, items, pair);
  }

  /** One good reading with room for both items, the counter at n below the batch end. */
  lemma TickFits(h: Handler, rd: Reading, n: nat)
    requires Valid(h.fifo) && !h.halted && h.location == n && n < BatchSize
    requires h.fifo.numItems + 2 <= h.fifo.capacity
    ensures !Tick(h, Some(rd)).halted
    ensures Contents(Tick(h, Some(rd)).fifo) == Contents(h.fifo) + [rd.accel, rd.gyro]
    ensures Tick(h, Some(rd)).location == if n + 1 == BatchSize then 0 else n + 1
    ensures Tick(h, Some(rd)).eventSet <==> h.eventSet || n + 1 == BatchSize
  {
  }

  /**
   * The wait-and-read at the top of sensor_task: WindowItems items are read
   * with the status ignored, so on underflow the int16 buffer keeps whatever
   * it held before (`stale`).
   */
  function Drain(f: Fifo<Axes>, stale: seq<Int16>): (r: (Fifo<Axes>, seq<Int16>))
    requires Valid(f) && |stale| == Window
    ensures Valid(r.0) && SameShape(f, r.0) && |r.1| == Window
    ensures f.numItems >= WindowItems ==>
      r.1 == Samples(Contents(f)[..WindowItems]) && Contents(r.0) == Contents(f)[WindowItems..]
    ensures f.numItems < WindowItems ==> r.0 == f && r.1 == stale
  {
    var (g, items, status) := Read(f, WindowItems);
    (g, if status == Ok then Samples(items) else stale)
  }

  /**
   * One batch end to end on the acquisition side: from the state sensor_init
   * leaves, BatchSize good readings raise the event, and the drain then
   * hands the task those readings one per row and leaves the buffer empty.
   */
  lemma BatchThenDrain(pool: seq<Axes>, rs: seq<Reading>, stale: seq<Int16>)
    requires |pool| >= PoolSize / ItemSize && |rs| == BatchSize && |stale| == Window
    ensures var h := Ticks(Start(pool).value, Good(rs));
      && h.eventSet && h.location == 0
      && Drain(h.fifo, stale).1 == Samples(Items(rs))
      && Contents(Drain(h.fifo, stale).0) == []
  {
    var h0 := Start(pool).value;
    TicksFill(h0, rs);
    var h := Ticks(h0, Good(rs));
    assert Contents(h.fifo) == Items(rs);
    assert Contents(h.fifo)[..WindowItems] == Items(rs);
  }

  /**
   * With exactly one free slot a reading is split: its accelerometer item
   * is stored and its gyroscope item dropped. A run of whole interrupts and
   * whole window reads from start-up never reaches this state
   * (RunNeverLeavesOneSlot); it needs the interrupt to preempt the task's
   * item-by-item read.
   */
  lemma OneFreeSlotSplitsReading(h: Handler, rd: Reading)
    requires Valid(h.fifo) && !h.halted && h.fifo.numItems + 1 == h.fifo.capacity
    ensures Contents(Tick(h, Some(rd)).fifo) == Contents(h.fifo) + [rd.accel]
    ensures IsFull(Tick(h, Some(rd)).fifo)
  {
  }

  /**
   * Two windows fit: a batch arriving while at most one undrained batch
   * waits, its event still pending or not, is stored whole and leaves the
   * event pending.
   */
  lemma SecondBatchFits(h: Handler, rs: seq<Reading>)
    requires Valid(h.fifo) && h.fifo.capacity == 2 * WindowItems && h.fifo.numItems <= WindowItems
    requires !h.halted && h.location == 0 && |rs| == BatchSize
    ensures Contents(Ticks(h, Good(rs)).fifo) == Contents(h.fifo) + Items(rs)
    ensures Ticks(h, Good(rs)).eventSet
  {
    TicksFill(h, rs);
  }

  /**
   * Two batches of good readings from the state sensor_init leaves, with
   * no drain between them, fill the buffer exactly, in order.
   */
  lemma TwoBatchesFromStart(pool: seq<Axes>, rs1: seq<Reading>, rs2: seq<Reading>)
    requires |pool| >= PoolSize / ItemSize && |rs1| == BatchSize && |rs2| == BatchSize
    ensures var h := Ticks(Ticks(Start(pool).value, Good(rs1)), Good(rs2));
      && Contents(h.fifo) == Items(rs1) + Items(rs2) && IsFull(h.fifo) && h.eventSet
  {
    var h0 := Start(pool).value;
    TicksFill(h0, rs1);
    var h1 := Ticks(h0, Good(rs1));
    assert Contents(h1.fifo) == Items(rs1);
    SecondBatchFits(h1, rs2);
  }

  /** What happens next in the running system: a timer interrupt with its read's outcome, or the task's read of one window. */
  datatype Event = Sample(outcome: Option<Reading>) | Consume

  /**
   * The handler after `events`, in order, each one whole: an interrupt
   * runs both its writes, and the task's cy_fifo_read of WindowItems items
   * completes before the next interrupt.
   */
  function Run(h: Handler, events: seq<Event>): (r: Handler)
    requires Valid(h.fifo)
    ensures Valid(r.fifo) && SameShape(h.fifo, r.fifo)
    decreases |events|
  {
    if events == [] then h
    else
      var before := Run(h, events[..|events| - 1]);
      match events[|events| - 1]
      case Sample(outcome) => Tick(before, outcome)
      case Consume => before.(fifo := Read(before.fifo, WindowItems).0)
  }

  /**
   * With an even capacity, whole interrupts (two items or none) and whole
   * window reads (WindowItems items or none) keep the item count even.
   */
  lemma {:induction false} RunKeepsEvenCount(h: Handler, events: seq<Event>)
    requires Valid(h.fifo) && h.fifo.capacity % 2 == 0 && h.fifo.numItems % 2 == 0
    ensures Run(h, events).fifo.numItems % 2 == 0
    decreases |events|
  {
    if events != [] {
      RunKeepsEvenCount(h, events[..|events| - 1]);
      var before := Run(h, events[..|events| - 1]);
      EvenCountStep(before, events[|events| - 1]);
    }
  }

  /** RunKeepsEvenCount's step: one event from an even count below an even capacity. */
  lemma EvenCountStep(h: Handler, e: Event)
    requires Valid(h.fifo) && h.fifo.capacity % 2 == 0 && h.fifo.numItems % 2 == 0
    ensures e.Sample? ==> Tick(h, e.outcome).fifo.numItems % 2 == 0
    ensures e.Consume? ==> Read(h.fifo, WindowItems).0.numItems % 2 == 0
  {
    if e.Sample? {
      TickKeepsEvenCount(h, e.outcome);
    } else {
      var (g, _, status) := Read(h.fifo, WindowItems);
      if status == Ok {
        assert g.numItems == |Contents(g)| == h.fifo.numItems - WindowItems;
        EvenMinus(h.fifo.numItems, WindowItems);
      }
    }
  }

  /** One interrupt from an even count below an even capacity stores two items or none. */
  lemma TickKeepsEvenCount(h: Handler, outcome: Option<Reading>)
    requires Valid(h.fifo) && h.fifo.capacity % 2 == 0 && h.fifo.numItems % 2 == 0
    ensures Tick(h, outcome).fifo.numItems % 2 == 0
  {
    if !h.halted && outcome.Some? {
      var r := Tick(h, outcome);
      if h.fifo.numItems + 2 <= h.fifo.capacity {
        assert r.fifo.numItems == |Contents(r.fifo)| == h.fifo.numItems + 2;
        EvenMinus(h.fifo.numItems + 2, 2);
      } else {
        EvenBelowEven(h.fifo.numItems, h.fifo.capacity);
        assert r.fifo.numItems == |Contents(r.fifo)| == h.fifo.numItems;
      }
    }
  }

  lemma EvenMinus(a: int, b: int)
    requires a % 2 == 0 || (a - b) % 2 == 0
    requires b % 2 == 0
    ensures a % 2 == 0 && (a - b) % 2 == 0
  {
  }

  lemma EvenBelowEven(n: nat, cap: nat)
    requires n % 2 == 0 && cap % 2 == 0 && n <= cap < n + 2
    ensures n == cap
  {
  }

  /**
   * From the state sensor_init leaves, whole interrupts and whole window
   * reads never leave exactly one free slot, so OneFreeSlotSplitsReading's
   * state needs an interrupt that lands inside cy_fifo_read's item loop.
   */
  lemma RunNeverLeavesOneSlot(pool: seq<Axes>, events: seq<Event>)
    requires |pool| >= PoolSize / ItemSize
    ensures var h := Run(Start(pool).value, events);
      h.fifo.numItems % 2 == 0 && h.fifo.numItems + 1 != h.fifo.capacity
  {
    RunKeepsEvenCount(Start(pool).value, events);
  }
}
