/**
 * The pre-processing chain of source/sensor.c's sensor_task, shared with
 * source/gesture.c: an int16 window widened to floats, every channel run
 * through the third-order Butterworth filter with a restarted state
 * record, min-max normalisation over the sensor range, and the conversion
 * to the model's input format.
 */
module Pipeline {
  import opened Results
  import opened Numeric
  import opened Layout
  import opened Fifo
  import Iir
  import opened Processing
  import opened NnUtils
  import opened Acquisition

  /** A zero-filled float buffer: the cast below overwrites all of it. */
  function Zeros(n: nat): (z: seq<real>)
    ensures |z| == n
  {
    seq(n, _ => 0.0)
  }

  /** Every int16 value as a float. */
  function Widen(window: seq<Int16>): (w: seq<real>)
    ensures |w| == |window| && forall k :: 0 <= k < |window| ==> w[k] == window[k] as real
  {
    seq(|window|, k requires 0 <= k < |window| => window[k] as real)
  }

  /** The filter state at rest: no tables, every tap zero. */
  const Quiet: Iir.FilterState :=
    Iir.FilterState([], [], [0.0, 0.0, 0.0, 0.0, 0.0, 0.0, 0.0, 0.0, 0.0, 0.0], [0.0, 0.0, 0.0, 0.0, 0.0, 0.0, 0.0, 0.0, 0.0, 0.0], 0)

  /** iir_filter_init with the Butterworth tables and order: the record restarted. */
  function Restart(st: Iir.FilterState): (r: Iir.FilterState)
    requires Iir.HasTaps(st)
    ensures Iir.Steppable(r) && r.b == Iir.ButterB && r.a == Iir.ButterA && r.order == Iir.ButterOrder
  {
    Iir.ButterworthRestartSteps(st);
    Iir.Init(st, Iir.ButterB, Iir.ButterA, Iir.ButterOrder).0
  }

  /** One channel run through the third-order Butterworth filter from rest. */
  function Smoothed(samples: seq<real>): (r: seq<real>)
    ensures |r| == |samples|
  {
    Iir.FilterSeq(Restart(Quiet), samples).1
  }

  /**
   * Re-initialising with the Butterworth tables, whatever the record held,
   * and then filtering gives the channel smoothed from rest.
   */
  lemma SmoothedFromAnyState(st: Iir.FilterState, samples: seq<real>)
    requires Iir.HasTaps(st)
    ensures Iir.FilterSeq(Restart(st), samples).1 == Smoothed(samples)
  {
    Iir.ButterworthRestartSteps(st);
    Iir.ButterworthRestartSteps(Quiet);
    Iir.InitForgetsPriorState(st, Quiet, Iir.ButterB, Iir.ButterA, Iir.ButterOrder, samples);
  }

  /**
   * The filter loop of sensor_task over channels 0..cur-1 of a buffer of
   * `length` rows of `width` channels: one shared state record, restarted
   * before each channel, then run down that channel's `length` samples.
   */
  function FilterChannels(st: Iir.FilterState, buf: seq<real>, length: nat, width: nat, cur: nat): (r: (Iir.FilterState, seq<real>))
    requires Iir.HasTaps(st) && Index(length, 0, width) <= |buf| && cur <= width
    ensures Iir.HasTaps(r.0) && |r.1| == |buf|
    decreases cur
  {
    if cur == 0 then (st, buf)
    else
      var prev := FilterChannels(st, buf, length, width, cur - 1);
      FilterNextChannel(prev.0, prev.1, length, width, cur - 1)
  }

  /** One pass of that loop: restart the record and filter channel `c` in place. */
  function FilterNextChannel(st: Iir.FilterState, buf: seq<real>, length: nat, width: nat, c: nat): (r: (Iir.FilterState, seq<real>))
    requires Iir.HasTaps(st) && Index(length, 0, width) <= |buf| && c < width
    ensures Iir.HasTaps(r.0) && |r.1| == |buf|
  {
    ColumnFitsInRows(|buf|, length, c, width);
    Iir.FilterColumn(Restart(st), buf, length, c, width)
  }

  /** Channels below `cur` of `out` are `orig`'s channels smoothed; the others are `orig`'s. */
  predicate ChannelsSmoothed(orig: seq<real>, out: seq<real>, length: nat, width: nat, cur: nat)
    requires |orig| == |out|
  {
    forall c {:trigger Column(out, length, c, width)} :: 0 <= c < width ==>
      && ColumnFits(|orig|, length, c, width)
      && Column(out, length, c, width) ==
           (if c < cur then Smoothed(Column(orig, length, c, width)) else Column(orig, length, c, width))
  }

  /** One more channel: filtering channel `cc` of a buffer smoothed below `cc` smooths it below `cc + 1`. */
  lemma FilterChannelStep(st: Iir.FilterState, orig: seq<real>, partial: seq<real>, length: nat, width: nat, cc: nat)
    requires Iir.HasTaps(st) && |orig| == |partial| && Index(length, 0, width) <= |orig| && cc < width
    requires ChannelsSmoothed(orig, partial, length, width, cc)
    ensures ChannelsSmoothed(orig, FilterNextChannel(st, partial, length, width, cc).1, length, width, cc + 1)
  {
    var out := FilterNextChannel(st, partial, length, width, cc).1;
    forall c | 0 <= c < width
      ensures ColumnFits(|orig|, length, c, width)
      ensures Column(out, length, c, width) ==
        (if c < cc + 1 then Smoothed(Column(orig, length, c, width)) else Column(orig, length, c, width))
    {
      FilterChannelStepAt(st, orig, partial, length, width, cc, c);
    }
  }

  /** FilterChannelStep for one channel `c`: the filtered one is smoothed, every other one is kept. */
  lemma FilterChannelStepAt(st: Iir.FilterState, orig: seq<real>, partial: seq<real>, length: nat, width: nat, cc: nat, c: nat)
    requires Iir.HasTaps(st) && |orig| == |partial| && Index(length, 0, width) <= |orig| && cc < width && c < width
    requires ChannelsSmoothed(orig, partial, length, width, cc)
    ensures ColumnFits(|orig|, length, c, width)
    ensures Column(FilterNextChannel(st, partial, length, width, cc).1, length, c, width) ==
      (if c < cc + 1 then Smoothed(Column(orig, length, c, width)) else Column(orig, length, c, width))
  {
    ColumnFitsInRows(|partial|, length, cc, width);
    ColumnFitsInRows(|partial|, length, c, width);
    var out := Iir.FilterColumn(Restart(st), partial, length, cc, width).1;
    assert out == FilterNextChannel(st, partial, length, width, cc).1;
    if c == cc {
      assert Column(partial, length, cc, width) == Column(orig, length, cc, width);
      Iir.FilterColumnIsFilterSeq(Restart(st), partial, length, cc, width);
      ColumnOf(out, Iir.FilterSeq(Restart(st), Column(partial, length, cc, width)).1, length, cc, width);
      SmoothedFromAnyState(st, Column(orig, length, cc, width));
    } else {
      assert Column(partial, length, c, width) ==
        (if c < cc then Smoothed(Column(orig, length, c, width)) else Column(orig, length, c, width));
      Iir.FilterColumnOtherColumns(Restart(st), partial, length, cc, width);
      ColumnsAgree(out, partial, length, c, width);
    }
  }

  /**
   * Each channel is filtered on its own: after the loop has done `cur`
   * channels, those hold their own samples smoothed from rest, whatever
   * state the record held before, and the rest are untouched.
   */
  lemma {:induction false} FilterChannelsSeparately(st: Iir.FilterState, buf: seq<real>, length: nat, width: nat, cur: nat)
    requires Iir.HasTaps(st) && Index(length, 0, width) <= |buf| && cur <= width
    ensures ChannelsSmoothed(buf, FilterChannels(st, buf, length, width, cur).1, length, width, cur)
    decreases cur
  {
    if cur == 0 {
      NothingSmoothedYet(st, buf, length, width);
    } else {
      FilterChannelsSeparately(st, buf, length, width, cur - 1);
      FilterChannelsNext(st, buf, length, width, cur);
    }
  }

  /** Before the loop no channel is filtered. */
  lemma NothingSmoothedYet(st: Iir.FilterState, buf: seq<real>, length: nat, width: nat)
    requires Iir.HasTaps(st) && Index(length, 0, width) <= |buf|
    ensures ChannelsSmoothed(buf, FilterChannels(st, buf, length, width, 0).1, length, width, 0)
  {
    assert FilterChannels(st, buf, length, width, 0).1 == buf;
    forall c | 0 <= c < width
      ensures ColumnFits(|buf|, length, c, width)
    {
      ColumnFitsInRows(|buf|, length, c, width);
    }
  }

  /** One pass of the channel loop extends the smoothed channels by one. */
  lemma FilterChannelsNext(st: Iir.FilterState, buf: seq<real>, length: nat, width: nat, cur: nat)
    requires Iir.HasTaps(st) && Index(length, 0, width) <= |buf| && 0 < cur <= width
    requires ChannelsSmoothed(buf, FilterChannels(st, buf, length, width, cur - 1).1, length, width, cur - 1)
    ensures ChannelsSmoothed(buf, FilterChannels(st, buf, length, width, cur).1, length, width, cur)
  {
    var prev := FilterChannels(st, buf, length, width, cur - 1);
    FilterChannelStep(prev.0, buf, prev.1, length, width, cur - 1);
  }

  /**
   * The pre-processing shared by sensor_task and gesture_task on a window
   * of `length` rows of `width` channels: widen to floats, filter every
   * channel, and normalise over [MinDataSample, MaxDataSample]. Every
   * result lies in [-1, 1].
   */
  function Preprocess(st: Iir.FilterState, window: seq<Int16>, length: nat, width: nat): (r: (Iir.FilterState, seq<real>))
    requires Iir.HasTaps(st) && |window| == length * width
    ensures Iir.HasTaps(r.0) && |r.1| == |window|
    ensures forall k :: 0 <= k < |window| ==> -1.0 <= r.1[k] <= 1.0
  {
    var floats := CastInt16ToFloat(window, Zeros(|window|), |window|);
    var (after, filtered) := FilterChannels(st, floats, length, width, width);
    NormalizeBufferInRange(filtered, length, width, MinDataSample, MaxDataSample);
    (after, NormalizeBuffer(filtered, length, width, MinDataSample, MaxDataSample))
  }

  /** Channel `c` of a window of `length` rows of `width` channels, widened: its samples in row order. */
  function Channel(window: seq<Int16>, length: nat, width: nat, c: nat): (ch: seq<real>)
    requires |window| == length * width && c < width
    ensures |ch| == length
    ensures forall i :: 0 <= i < length ==> Index(i, c, width) < |window| && ch[i] == window[Index(i, c, width)] as real
  {
    ColumnFitsInRows(|window|, length, c, width);
    Column(Widen(window), length, c, width)
  }

  /**
   * What pre-processing computes, position by position: row `i` of channel
   * `c` is sample `i` of that channel smoothed from rest and then
   * normalised over the sensor range.
   */
  lemma PreprocessPerChannel(st: Iir.FilterState, window: seq<Int16>, length: nat, width: nat)
    requires Iir.HasTaps(st) && |window| == length * width
    ensures forall i, c :: 0 <= i < length && 0 <= c < width ==>
      Index(i, c, width) < |window| &&
      Preprocess(st, window, length, width).1[Index(i, c, width)] ==
        Normalize(Smoothed(Channel(window, length, width, c))[i], MinDataSample, MaxDataSample)
  {
    forall i, c | 0 <= i < length && 0 <= c < width
      ensures Index(i, c, width) < |window|
      ensures Preprocess(st, window, length, width).1[Index(i, c, width)] ==
        Normalize(Smoothed(Channel(window, length, width, c))[i], MinDataSample, MaxDataSample)
    {
      PreprocessAt(st, window, length, width, i, c);
    }
  }

  /** PreprocessPerChannel at one row and channel. */
  lemma PreprocessAt(st: Iir.FilterState, window: seq<Int16>, length: nat, width: nat, i: nat, c: nat)
    requires Iir.HasTaps(st) && |window| == length * width && i < length && c < width
    ensures Index(i, c, width) < |window|
    ensures Preprocess(st, window, length, width).1[Index(i, c, width)] ==
      Normalize(Smoothed(Channel(window, length, width, c))[i], MinDataSample, MaxDataSample)
  {
    var floats := CastInt16ToFloat(window, Zeros(|window|), |window|);
    assert floats == Widen(window);
    assert Index(length, 0, width) == |window|;
    var filtered := FilterChannels(st, floats, length, width, width).1;
    FilterChannelsSeparately(st, floats, length, width, width);
    assert Column(filtered, length, c, width) == Smoothed(Column(floats, length, c, width));
    assert Column(floats, length, c, width) == Channel(window, length, width, c);
    assert filtered[Index(i, c, width)] == Column(filtered, length, c, width)[i];
  }

  /** The pre-processed window does not depend on what the filter record held before. */
  lemma PreprocessIgnoresFilterState(st1: Iir.FilterState, st2: Iir.FilterState, window: seq<Int16>, length: nat, width: nat)
    requires Iir.HasTaps(st1) && Iir.HasTaps(st2) && |window| == length * width
    ensures Preprocess(st1, window, length, width).1 == Preprocess(st2, window, length, width).1
  {
    var a, b := Preprocess(st1, window, length, width).1, Preprocess(st2, window, length, width).1;
    forall k | 0 <= k < |window|
      ensures a[k] == b[k]
    {
      PreprocessEntryIgnoresFilterState(st1, st2, window, length, width, k);
    }
  }

  /** PreprocessIgnoresFilterState at one position of the window. */
  lemma PreprocessEntryIgnoresFilterState(st1: Iir.FilterState, st2: Iir.FilterState, window: seq<Int16>, length: nat, width: nat, k: nat)
    requires Iir.HasTaps(st1) && Iir.HasTaps(st2) && |window| == length * width && k < |window|
    ensures Preprocess(st1, window, length, width).1[k] == Preprocess(st2, window, length, width).1[k]
  {
    WholeRowsEnd(length, width);
    Decompose(k, length, width);
    var i, c := k / width, k % width;
    PreprocessAt(st1, window, length, width, i, c);
    PreprocessAt(st2, window, length, width, i, c);
  }

  /** The three builds of the firmware: 16-bit fixed point, 8-bit fixed point, float. */
  datatype Precision = Fixed16 | Fixed8 | Float32

  /** What the model is fed, with the fraction bits it is told for fixed-point input. */
  datatype ModelInput =
    | Int16Input(values16: seq<Int16>, q: nat)
    | Int8Input(values8: seq<Int8>, q: nat)
    | FloatInput(values: seq<real>)

  /**
   * The end of sensor_task with the converters' sign test corrected:
   * fixed-point builds convert with scale 32767 or 127, rounding half away
   * from zero, and declare 15 or 7 fraction bits; the float build feeds the
   * values. FeedAsWritten is what the firmware does.
   */
  function Feed(p: Precision, data: seq<real>): (m: ModelInput)
    requires forall k :: 0 <= k < |data| ==> -1.0 <= data[k] <= 1.0
    ensures p == Fixed16 <==> m.Int16Input?
    ensures p == Fixed8 <==> m.Int8Input?
    ensures m.Int16Input? ==> m.q == 15 && |m.values16| == |data|
    ensures m.Int16Input? ==> forall k :: 0 <= k < |data| ==>
      -32767 <= m.values16[k] as int && -0.5 <= m.values16[k] as real - data[k] * 32767.0 <= 0.5
    ensures m.Int8Input? ==> m.q == 7 && |m.values8| == |data|
    ensures m.Int8Input? ==> forall k :: 0 <= k < |data| ==>
      -127 <= m.values8[k] as int && -0.5 <= m.values8[k] as real - data[k] * 127.0 <= 0.5
    ensures m.FloatInput? ==> m.values == data
  {
    match p
    case Fixed16 =>
      UnitRangeFitsInt16(data);
      Int16Input(ConvertFltToInt16(data, 32767.0), 15)
    case Fixed8 =>
      UnitRangeFitsInt8(data);
      Int8Input(ConvertFltToInt8(data, 127.0), 7)
    case Float32 => FloatInput(data)
  }

  /**
   * The end of sensor_task as written: the same scales and fraction bits,
   * but the conversion of element k takes its sign test from element 2k of
   * the memory that starts at `data_feed` (`data` followed by `beyond`, what
   * lies past the buffer). Every converted value is still in range and
   * within one step of the exact product.
   */
  function FeedAsWritten(p: Precision, data: seq<real>, beyond: seq<real>): (m: ModelInput)
    requires forall k :: 0 <= k < |data| ==> -1.0 <= data[k] <= 1.0
    requires |data| <= |beyond| + 1
    ensures p == Fixed16 <==> m.Int16Input?
    ensures p == Fixed8 <==> m.Int8Input?
    ensures m.Int16Input? ==> m.q == 15 && |m.values16| == |data|
    ensures m.Int16Input? ==> forall k :: 0 <= k < |data| ==>
      && m.values16[k] as int == QuantizeWithSignOf(data[k], (data + beyond)[2 * k], 32767.0)
      && -32767 <= m.values16[k] as int && -1.5 < m.values16[k] as real - data[k] * 32767.0 < 1.5
    ensures m.Int8Input? ==> m.q == 7 && |m.values8| == |data|
    ensures m.Int8Input? ==> forall k :: 0 <= k < |data| ==>
      && m.values8[k] as int == QuantizeWithSignOf(data[k], (data + beyond)[2 * k], 127.0)
      && -127 <= m.values8[k] as int && -1.5 < m.values8[k] as real - data[k] * 127.0 < 1.5
    ensures m.FloatInput? ==> m.values == data
  {
    match p
    case Fixed16 =>
      var r := ConvertAsWritten(data, beyond, 32767.0);
      AsWrittenInRange(data, beyond, 32767);
      Int16Input(seq(|r|, k requires 0 <= k < |r| => r[k] as Int16), 15)
    case Fixed8 =>
      var r := ConvertAsWritten(data, beyond, 127.0);
      AsWrittenInRange(data, beyond, 127);
      Int8Input(seq(|r|, k requires 0 <= k < |r| => r[k] as Int8), 7)
    case Float32 => FloatInput(data)
  }

  /**
   * When every value the conversion loop reads is non-negative (or every
   * one is negative), the firmware's feed is the corrected one.
   */
  lemma FeedAsWrittenAgreesOnOneSign(p: Precision, data: seq<real>, beyond: seq<real>)
    requires forall k :: 0 <= k < |data| ==> -1.0 <= data[k] <= 1.0
    requires |data| <= |beyond| + 1
    requires (forall k :: 0 <= k < |data| + |beyond| ==> 0.0 <= (data + beyond)[k])
          || (forall k :: 0 <= k < |data| + |beyond| ==> (data + beyond)[k] < 0.0)
    ensures FeedAsWritten(p, data, beyond) == Feed(p, data)
  {
    if p == Fixed16 {
      AsWrittenAgreesOnOneSign(data, beyond, 32767.0);
      assert FeedAsWritten(p, data, beyond).values16 == Feed(p, data).values16;
    } else if p == Fixed8 {
      AsWrittenAgreesOnOneSign(data, beyond, 127.0);
      assert FeedAsWritten(p, data, beyond).values8 == Feed(p, data).values8;
    }
  }

  /**
   * A window of mixed signs on the 8-bit build: the firmware feeds -50 for
   * -0.4 where the corrected feed gives -51, so the two feeds differ.
   */
  lemma FeedAsWrittenMisrounds()
    ensures FeedAsWritten(Fixed8, [0.3, -0.4, 0.2], [0.0, 0.0]).values8[1] == -50
    ensures Feed(Fixed8, [0.3, -0.4, 0.2]).values8[1] == -51
    ensures FeedAsWritten(Fixed8, [0.3, -0.4, 0.2], [0.0, 0.0]) != Feed(Fixed8, [0.3, -0.4, 0.2])
  {
    AsWrittenMisroundsMixedSigns();
  }

  /**
   * The declared Q format outcomes back slightly small: full scale 1.0 becomes
   * 32767, which at 15 fraction bits stands for 32767/32768.
   */
  lemma FullScaleReadsBackShort()
    ensures Quantize(1.0, 32767.0) == 32767
    ensures Dequantize(32767, 15) == 32767.0 / 32768.0
  {
    assert Pow2(15) == 32768 by {
      assert Pow2(8) == 256;
    }
  }

  /**
   * The model input sensor_task makes of one window of `length` rows of
   * `width` channels, with `beyond` the memory past its float buffer.
   */
  function ModelInputOf(p: Precision, st: Iir.FilterState, window: seq<Int16>, length: nat, width: nat, beyond: seq<real>): (m: ModelInput)
    requires Iir.HasTaps(st) && |window| == length * width && |window| <= |beyond| + 1
  {
    FeedAsWritten(p, Preprocess(st, window, length, width).1, beyond)
  }

  /**
   * One pass of sensor_task's loop body after the event: drain a window,
   * pre-process it with the task's filter record, and produce model input
   * with the firmware's converters (`beyond` is the memory past the float
   * buffer that their sign test reads).
   */
  function TaskStep(p: Precision, st: Iir.FilterState, f: Fifo<Axes>, stale: seq<Int16>, beyond: seq<real>): (r: (Fifo<Axes>, Iir.FilterState, ModelInput))
    requires Valid(f) && Iir.HasTaps(st) && |stale| == Window && Window <= |beyond| + 1
    ensures Valid(r.0) && Iir.HasTaps(r.1)
    ensures f.numItems >= WindowItems ==> Contents(r.0) == Contents(f)[WindowItems..]
    ensures f.numItems < WindowItems ==> r.0 == f
    ensures r.2 == ModelInputOf(p, st, Drain(f, stale).1, BatchSize, NumAxis, beyond)
  {
    var (g, window) := Drain(f, stale);
    var (after, data) := Preprocess(st, window, BatchSize, NumAxis);
    (g, after, FeedAsWritten(p, data, beyond))
  }

  /**
   * A full batch reaches the model intact: after BatchSize good readings
   * from start-up, the task feeds the model the pre-processed window whose
   * row `i` is reading `i`, and leaves the buffer empty.
   */
  lemma BatchReachesModel(p: Precision, pool: seq<Axes>, rs: seq<Reading>, stale: seq<Int16>, st: Iir.FilterState, beyond: seq<real>)
    requires |pool| >= PoolSize / ItemSize && |rs| == BatchSize && |stale| == Window && Iir.HasTaps(st)
    requires Window <= |beyond| + 1
    ensures var h := Ticks(Start(pool).value, Good(rs));
      && Contents(TaskStep(p, st, h.fifo, stale, beyond).0) == []
      && TaskStep(p, st, h.fifo, stale, beyond).2 == ModelInputOf(p, st, Samples(Items(rs)), BatchSize, NumAxis, beyond)
  {
    BatchThenDrain(pool, rs, stale);
  }
}
