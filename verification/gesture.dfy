/**
 * source/gesture.c: the task of the gesture build. Each pass takes a
 * window of BatchSize readings, pre-processes it exactly as sensor_task
 * does, optionally turns the axes of a BMI160 board into the board
 * orientation the model was trained on, and then either prints the window
 * as CSV for data collection or hands it to the model. The model library
 * (initialisation, quantisation, inference) and the read of the window
 * from the sensor are outside the model: the window is a parameter and the
 * result is what would be handed on.
 */
module Gesture {
  import opened Results
  import opened Numeric
  import opened Layout
  import Iir
  import opened Processing
  import opened Acquisition
  import opened Pipeline
  import DataPrepare

  /**
   * The fraction bits gesture_init declares for the model input: 15 for
   * the 16-bit builds, 7 for the 8-bit build, none for the float build.
   */
  function QFormat(p: Precision): (q: Option<nat>)
    ensures q.None? <==> p == Float32
    ensures q.Some? ==> q.value < 16 && (p == Fixed16 ==> q.value == 15) && (p == Fixed8 ==> q.value == 7)
  {
    match p
    case Fixed16 => Some(15)
    case Fixed8 => Some(7)
    case Float32 => None
  }

  /** The Q format declared at start-up is the one sensor_task states with its converted input. */
  lemma QFormatAgreesWithFeed(p: Precision, data: seq<real>)
    requires forall k :: 0 <= k < |data| ==> -1.0 <= data[k] <= 1.0
    requires p != Float32
    ensures QFormat(p) == Some(Feed(p, data).q)
  {
  }

  /** Row `i` of a row-major buffer of rows `width` wide. */
  function RowOf(buf: seq<real>, i: nat, width: nat): (row: seq<real>)
    requires Index(i + 1, 0, width) <= |buf|
    ensures |row| == width
    ensures forall c :: 0 <= c < width ==> Index(i, c, width) < |buf| && row[c] == buf[Index(i, c, width)]
  {
    assert Index(i + 1, 0, width) == Index(i, 0, width) + width;
    buf[Index(i, 0, width)..Index(i, 0, width) + width]
  }

  /**
   * The reading of a BMI160 board in the orientation the model expects:
   * the x and y axes of both sensors exchanged and both z axes negated.
   */
  function Oriented(row: seq<real>): (r: seq<real>)
    requires |row| == NumAxis
    ensures |r| == NumAxis
  {
    [row[1], row[0], -row[2], row[4], row[3], -row[5]]
  }

  /** Orienting twice gives the reading back. */
  lemma OrientedTwice(row: seq<real>)
    requires |row| == NumAxis
    ensures Oriented(Oriented(row)) == row
  {
    assert forall c :: 0 <= c < NumAxis ==> Oriented(Oriented(row))[c] == row[c];
  }

  /**
   * The four buffer routines gesture_task runs on a BMI160 board, in
   * order: negate column 2, exchange columns 0 and 1, negate column 5,
   * exchange columns 3 and 4, each over the first `length` rows.
   */
  function BmiRemap(buf: seq<real>, length: nat): (r: seq<real>)
    requires Index(length, 0, NumAxis) <= |buf|
    ensures |r| == |buf|
  {
    ColumnFitsInRows(|buf|, length, 0, NumAxis);
    ColumnFitsInRows(|buf|, length, 1, NumAxis);
    ColumnFitsInRows(|buf|, length, 2, NumAxis);
    ColumnFitsInRows(|buf|, length, 3, NumAxis);
    ColumnFitsInRows(|buf|, length, 4, NumAxis);
    ColumnFitsInRows(|buf|, length, 5, NumAxis);
    var b1 := ColumnInverse(buf, length, NumAxis, 2);
    var b2 := ColumnSwap(b1, length, NumAxis, 0, 1);
    var b3 := ColumnInverse(b2, length, NumAxis, 5);
    ColumnSwap(b3, length, NumAxis, 3, 4)
  }

  /** Every column of a buffer of `length` whole rows of six fits. */
  lemma AllColumnsFit(size: nat, length: nat)
    requires Index(length, 0, NumAxis) <= size
    ensures forall c :: 0 <= c < NumAxis ==> ColumnFits(size, length, c, NumAxis)
  {
    forall c | 0 <= c < NumAxis
      ensures ColumnFits(size, length, c, NumAxis)
    {
      ColumnFitsInRows(size, length, c, NumAxis);
    }
  }

  /** Where entry `c` of an oriented reading comes from, and its sign. */
  lemma OrientedEntry(row: seq<real>, c: nat)
    requires |row| == NumAxis && c < NumAxis
    ensures Oriented(row)[c] == (if c == 2 || c == 5 then -row[c] else row[Swapped(c, 3, 4) + Swapped(c, 0, 1) - c])
  {
  }

  /** BmiRemapOrients at one row and column. */
  lemma BmiRemapAt(buf: seq<real>, length: nat, i: nat, c: nat)
    requires Index(length, 0, NumAxis) <= |buf| && i < length && c < NumAxis
    ensures Index(i + 1, 0, NumAxis) <= |buf|
    ensures BmiRemap(buf, length)[Index(i, c, NumAxis)] == Oriented(RowOf(buf, i, NumAxis))[c]
  {
    IndexMonotone(i + 1, length, 0, NumAxis);
    AllColumnsFit(|buf|, length);
    var b1 := ColumnInverse(buf, length, NumAxis, 2);
    var b2 := ColumnSwap(b1, length, NumAxis, 0, 1);
    var b3 := ColumnInverse(b2, length, NumAxis, 5);
    var b4 := ColumnSwap(b3, length, NumAxis, 3, 4);
    assert b4 == BmiRemap(buf, length);
    var c3, c2 := Swapped(c, 3, 4), Swapped(Swapped(c, 3, 4), 0, 1);
    assert b4[Index(i, c, NumAxis)] == b3[Index(i, c3, NumAxis)] by {
      ColumnSwapMoves(b3, length, NumAxis, 3, 4);
    }
    assert b3[Index(i, c3, NumAxis)] == if c3 == 5 then -b2[Index(i, c3, NumAxis)] else b2[Index(i, c3, NumAxis)] by {
      ColumnInverseNegates(b2, length, NumAxis, 5);
    }
    assert b2[Index(i, c3, NumAxis)] == b1[Index(i, c2, NumAxis)] by {
      ColumnSwapMoves(b1, length, NumAxis, 0, 1);
    }
    assert b1[Index(i, c2, NumAxis)] == if c2 == 2 then -buf[Index(i, c2, NumAxis)] else buf[Index(i, c2, NumAxis)] by {
      ColumnInverseNegates(buf, length, NumAxis, 2);
    }
    OrientedEntry(RowOf(buf, i, NumAxis), c);
  }

  /** Past the first `length` rows the buffer is left alone. */
  lemma BmiRemapTail(buf: seq<real>, length: nat)
    requires Index(length, 0, NumAxis) <= |buf|
    ensures forall k :: Index(length, 0, NumAxis) <= k < |buf| ==> BmiRemap(buf, length)[k] == buf[k]
  {
    AllColumnsFit(|buf|, length);
    var b1 := ColumnInverse(buf, length, NumAxis, 2);
    var b2 := ColumnSwap(b1, length, NumAxis, 0, 1);
    var b3 := ColumnInverse(b2, length, NumAxis, 5);
    ColumnInverseNegates(buf, length, NumAxis, 2);
    ColumnSwapMoves(b1, length, NumAxis, 0, 1);
    ColumnInverseNegates(b2, length, NumAxis, 5);
    ColumnSwapMoves(b3, length, NumAxis, 3, 4);
  }

  /**
   * On a BMI160 board every row of the first `length` becomes its oriented
   * reading; the rest of the buffer is left alone.
   */
  lemma BmiRemapOrients(buf: seq<real>, length: nat)
    requires Index(length, 0, NumAxis) <= |buf|
    ensures forall i :: 0 <= i < length ==>
      RowOf(BmiRemap(buf, length), i, NumAxis) == Oriented(RowOf(buf, i, NumAxis))
    ensures forall k :: Index(length, 0, NumAxis) <= k < |buf| ==> BmiRemap(buf, length)[k] == buf[k]
  {
    BmiRemapTail(buf, length);
    forall i | 0 <= i < length
      ensures RowOf(BmiRemap(buf, length), i, NumAxis) == Oriented(RowOf(buf, i, NumAxis))
    {
      BmiRemapRow(buf, length, i);
    }
  }

  /** BmiRemapOrients at one row. */
  lemma BmiRemapRow(buf: seq<real>, length: nat, i: nat)
    requires Index(length, 0, NumAxis) <= |buf| && i < length
    ensures Index(i + 1, 0, NumAxis) <= |buf|
    ensures RowOf(BmiRemap(buf, length), i, NumAxis) == Oriented(RowOf(buf, i, NumAxis))
  {
    IndexMonotone(i + 1, length, 0, NumAxis);
    var got, want := RowOf(BmiRemap(buf, length), i, NumAxis), Oriented(RowOf(buf, i, NumAxis));
    forall c | 0 <= c < NumAxis
      ensures got[c] == want[c]
    {
      BmiRemapAt(buf, length, i, c);
    }
  }

  /** Remapping a remapped buffer gives the buffer back. */
  lemma BmiRemapInvolution(buf: seq<real>, length: nat)
    requires Index(length, 0, NumAxis) <= |buf|
    ensures BmiRemap(BmiRemap(buf, length), length) == buf
  {
    var once := BmiRemap(buf, length);
    var twice := BmiRemap(once, length);
    BmiRemapOrients(buf, length);
    BmiRemapOrients(once, length);
    forall i, c | 0 <= i < length && 0 <= c < NumAxis && Index(i, c, NumAxis) < |twice|
      ensures twice[Index(i, c, NumAxis)] == buf[Index(i, c, NumAxis)]
    {
      IndexMonotone(i + 1, length, 0, NumAxis);
      OrientedTwice(RowOf(buf, i, NumAxis));
      assert RowOf(twice, i, NumAxis) == RowOf(buf, i, NumAxis);
    }
    EqualByRows(twice, buf, length, NumAxis);
  }

  /** Re-orienting keeps every value of the buffer in [-1, 1]. */
  lemma BmiRemapInRange(buf: seq<real>, length: nat)
    requires Index(length, 0, NumAxis) <= |buf|
    requires forall k :: 0 <= k < |buf| ==> -1.0 <= buf[k] <= 1.0
    ensures forall k :: 0 <= k < |buf| ==> -1.0 <= BmiRemap(buf, length)[k] <= 1.0
  {
    BmiRemapOrients(buf, length);
    var r := BmiRemap(buf, length);
    forall k | 0 <= k < |buf|
      ensures -1.0 <= r[k] <= 1.0
    {
      if k < Index(length, 0, NumAxis) {
        Decompose(k, length, NumAxis);
        var i, c := k / NumAxis, k % NumAxis;
        IndexMonotone(i + 1, length, 0, NumAxis);
        assert r[k] == RowOf(r, i, NumAxis)[c];
        assert Oriented(RowOf(buf, i, NumAxis))[c] in RowOf(buf, i, NumAxis) + [-RowOf(buf, i, NumAxis)[2], -RowOf(buf, i, NumAxis)[5]];
      }
    }
  }

  /** The first `length` rows of a buffer of rows six wide, as data rows. */
  function Rows(buf: seq<real>, length: nat): (rows: seq<DataPrepare.Row>)
    requires Index(length, 0, NumAxis) <= |buf|
    ensures |rows| == length
    ensures forall i :: 0 <= i < length ==>
      |rows[i]| == NumAxis && forall c :: 0 <= c < NumAxis ==> Index(i, c, NumAxis) < |buf| && rows[i][c] == buf[Index(i, c, NumAxis)]
  {
    seq(length, i requires 0 <= i < length => RowAt(buf, length, i))
  }

  /** Row `i` of the first `length` rows. */
  function RowAt(buf: seq<real>, length: nat, i: nat): (row: seq<real>)
    requires Index(length, 0, NumAxis) <= |buf| && i < length
    ensures |row| == NumAxis && forall c :: 0 <= c < NumAxis ==> Index(i, c, NumAxis) < |buf| && row[c] == buf[Index(i, c, NumAxis)]
  {
    IndexMonotone(i + 1, length, 0, NumAxis);
    RowOf(buf, i, NumAxis)
  }

  /**
   * What a collection pass prints: the separator line, then one line of
   * six numbers per row. The numbers are the values themselves; the six
   * decimal places of the printout are not modelled.
   */
  function CollectionLines(buf: seq<real>, length: nat): (lines: seq<seq<DataPrepare.Cell>>)
    requires Index(length, 0, NumAxis) <= |buf|
    ensures |lines| == length + 1 && lines[0] == DataPrepare.Separator
    ensures forall i :: 1 <= i <= length ==>
      |lines[i]| == NumAxis &&
      forall c :: 0 <= c < NumAxis ==> Index(i - 1, c, NumAxis) < |buf| && lines[i][c] == DataPrepare.Number(buf[Index(i - 1, c, NumAxis)])
  {
    [DataPrepare.Separator] + DataPrepare.RecordingCells(Rows(buf, length))
  }

  /** The buffers of successive collection passes all hold `length` whole rows. */
  predicate WholeRows(bufs: seq<seq<real>>, length: nat) {
    forall j :: 0 <= j < |bufs| ==> Index(length, 0, NumAxis) <= |bufs[j]|
  }

  /** The serial output of successive collection passes, one after the other. */
  function Capture(bufs: seq<seq<real>>, length: nat): (lines: seq<seq<DataPrepare.Cell>>)
    requires WholeRows(bufs, length)
    ensures |lines| == |bufs| * (length + 1)
    decreases |bufs|
  {
    if bufs == [] then []
    else
      var front := bufs[..|bufs| - 1];
      assert WholeRows(front, length);
      assert |bufs| * (length + 1) == |front| * (length + 1) + (length + 1);
      Capture(front, length) + CollectionLines(bufs[|bufs| - 1], length)
  }

  /** The windows a capture holds, each as its rows. */
  function Windows(bufs: seq<seq<real>>, length: nat): (recs: seq<DataPrepare.Recording>)
    requires WholeRows(bufs, length)
    ensures |recs| == |bufs| && forall j :: 0 <= j < |bufs| ==> recs[j] == Rows(bufs[j], length)
  {
    seq(|bufs|, j requires 0 <= j < |bufs| => Rows(bufs[j], length))
  }

  /** A capture is the framed form the training scripts read back. */
  lemma {:induction false} CaptureIsFramed(bufs: seq<seq<real>>, length: nat)
    requires WholeRows(bufs, length)
    ensures Capture(bufs, length) == DataPrepare.Framed(Windows(bufs, length))
    decreases |bufs|
  {
    if bufs != [] {
      var front := bufs[..|bufs| - 1];
      var recs := Windows(bufs, length);
      assert WholeRows(front, length);
      CaptureIsFramed(front, length);
      assert recs[..|recs| - 1] == Windows(front, length);
    }
  }

  /**
   * Collection and preparation fit together: the captured windows, split
   * back at the separator lines, are the windows printed, row for row.
   */
  lemma CaptureSplitsIntoWindows(bufs: seq<seq<real>>, length: nat)
    requires length > 0 && WholeRows(bufs, length)
    ensures DataPrepare.SplitRecordings(Capture(bufs, length)) == Success(Windows(bufs, length))
  {
    CaptureIsFramed(bufs, length);
    DataPrepare.SplitFramedRoundTrip(Windows(bufs, length));
  }

  /** What the firmware was built for: collecting training data, or inference at a precision. */
  datatype Mode = Collect | Infer(precision: Precision)

  /**
   * What one pass hands on: the lines printed in collection mode; for a
   * fixed-point build, the values given to the model library's quantiser
   * with the declared fraction bits; for the float build, the values fed.
   */
  datatype PassOutput =
    | Printed(lines: seq<seq<DataPrepare.Cell>>)
    | ToQuantize(data: seq<real>, q: nat)
    | FloatFeed(data: seq<real>)

  /**
   * The pre-processed window of a pass over `length` rows, re-oriented on
   * a BMI160 board. The firmware's window holds BatchSize rows.
   */
  function OrientedWindow(bmi: bool, st: Iir.FilterState, window: seq<Int16>, length: nat): (data: seq<real>)
    requires Iir.HasTaps(st) && |window| == length * NumAxis
    ensures |data| == |window|
    ensures forall k :: 0 <= k < |window| ==> -1.0 <= data[k] <= 1.0
  {
    var data := Preprocess(st, window, length, NumAxis).1;
    WholeRowsEnd(length, NumAxis);
    if bmi then
      BmiRemapInRange(data, length);
      BmiRemap(data, length)
    else data
  }

  /**
   * What a pass in `mode` hands on for the pre-processed window `data` of
   * `length` rows: the collection lines, the values for the quantiser with
   * the Q-format of the build's precision, or the values themselves.
   */
  function PassOf(mode: Mode, data: seq<real>, length: nat): (out: PassOutput)
    requires |data| == length * NumAxis
    ensures out.Printed? <==> mode == Collect
    ensures out.FloatFeed? <==> mode == Infer(Float32)
    ensures out.ToQuantize? ==> Some(out.q) == QFormat(mode.precision)
  {
    WholeRowsEnd(length, NumAxis);
    match mode
    case Collect => Printed(CollectionLines(data, length))
    case Infer(Float32) => FloatFeed(data)
    case Infer(p) => ToQuantize(data, QFormat(p).value)
  }

  /**
   * Everything a pass hands on lies in [-1, 1] when its window does: the
   * printed lines are the separator and `length` lines of six numbers, and
   * the data for the model has one value per reading.
   */
  lemma PassOfInRange(mode: Mode, data: seq<real>, length: nat)
    requires |data| == length * NumAxis
    requires forall k :: 0 <= k < |data| ==> -1.0 <= data[k] <= 1.0
    ensures var out := PassOf(mode, data, length);
      && (out.Printed? ==>
        |out.lines| == length + 1 && out.lines[0] == DataPrepare.Separator &&
        forall i, c :: 1 <= i <= length && 0 <= c < NumAxis ==>
          |out.lines[i]| == NumAxis && out.lines[i][c].Number? && -1.0 <= out.lines[i][c].value <= 1.0)
      && (!out.Printed? ==> out.data == data)
  {
    WholeRowsEnd(length, NumAxis);
    if mode == Collect {
      var lines: seq<seq<DataPrepare.Cell>> := CollectionLines(data, length);
      forall i, c | 1 <= i <= length && 0 <= c < NumAxis
        ensures |lines[i]| == NumAxis && lines[i][c].Number? && -1.0 <= lines[i][c].value <= 1.0
      {
        assert lines[i][c] == DataPrepare.Number(data[Index(i - 1, c, NumAxis)]);
      }
    }
  }

  /**
   * One pass of gesture_task's loop on a window of `length` rows read from
   * the sensor (BatchSize in the firmware): the filter record it leaves
   * behind and what it hands on.
   */
  function GestureTask(mode: Mode, bmi: bool, st: Iir.FilterState, window: seq<Int16>, length: nat): (r: (Iir.FilterState, PassOutput))
    requires Iir.HasTaps(st) && |window| == length * NumAxis
    ensures Iir.HasTaps(r.0)
    ensures r.1.Printed? <==> mode == Collect
    ensures r.1.FloatFeed? <==> mode == Infer(Float32)
    ensures r.1.ToQuantize? ==> Some(r.1.q) == QFormat(mode.precision)
  {
    (Preprocess(st, window, length, NumAxis).0, PassOf(mode, OrientedWindow(bmi, st, window, length), length))
  }

  /** The values a pass hands on, printed or fed to the model, lie in [-1, 1]. */
  lemma GestureTaskInRange(mode: Mode, bmi: bool, st: Iir.FilterState, window: seq<Int16>, length: nat)
    requires Iir.HasTaps(st) && |window| == length * NumAxis
    ensures var out := GestureTask(mode, bmi, st, window, length).1;
      && (out.Printed? ==>
        |out.lines| == length + 1 && out.lines[0] == DataPrepare.Separator &&
        forall i, c :: 1 <= i <= length && 0 <= c < NumAxis ==>
          |out.lines[i]| == NumAxis && out.lines[i][c].Number? && -1.0 <= out.lines[i][c].value <= 1.0)
      && (!out.Printed? ==> |out.data| == |window| && forall k :: 0 <= k < |window| ==> -1.0 <= out.data[k] <= 1.0)
  {
    PassOfInRange(mode, OrientedWindow(bmi, st, window, length), length);
  }

  /** Like sensor_task's, a pass does not depend on what the filter record held before. */
  lemma GestureTaskIgnoresFilterState(mode: Mode, bmi: bool, st1: Iir.FilterState, st2: Iir.FilterState, window: seq<Int16>, length: nat)
    requires Iir.HasTaps(st1) && Iir.HasTaps(st2) && |window| == length * NumAxis
    ensures GestureTask(mode, bmi, st1, window, length).1 == GestureTask(mode, bmi, st2, window, length).1
  {
    OrientedWindowIgnoresFilterState(bmi, st1, st2, window, length);
  }

  /** The pre-processed, oriented window does not depend on the filter record. */
  lemma OrientedWindowIgnoresFilterState(bmi: bool, st1: Iir.FilterState, st2: Iir.FilterState, window: seq<Int16>, length: nat)
    requires Iir.HasTaps(st1) && Iir.HasTaps(st2) && |window| == length * NumAxis
    ensures OrientedWindow(bmi, st1, window, length) == OrientedWindow(bmi, st2, window, length)
  {
    PreprocessIgnoresFilterState(st1, st2, window, length, NumAxis);
  }

  /**
   * Without re-orientation the two tasks agree: the float build feeds the
   * model what sensor_task feeds it, and a fixed-point build quantises the
   * values sensor_task converts.
   */
  lemma GestureTaskMatchesSensorTask(p: Precision, st: Iir.FilterState, window: seq<Int16>, length: nat, beyond: seq<real>)
    requires Iir.HasTaps(st) && |window| == length * NumAxis && |window| <= |beyond| + 1
    ensures p == Float32 ==>
      GestureTask(Infer(p), false, st, window, length).1 == FloatFeed(ModelInputOf(p, st, window, length, NumAxis, beyond).values)
    ensures p != Float32 ==>
      ModelInputOf(p, st, window, length, NumAxis, beyond) == FeedAsWritten(p, GestureTask(Infer(p), false, st, window, length).1.data, beyond)
  {
  }

  /** Row `i` of a window pre-processed channel by channel. */
  function PreprocessedRow(window: seq<Int16>, length: nat, i: nat): (row: seq<real>)
    requires |window| == length * NumAxis && i < length
    ensures |row| == NumAxis
  {
    seq(NumAxis, c requires 0 <= c < NumAxis =>
      Normalize(Smoothed(Channel(window, length, NumAxis, c))[i], MinDataSample, MaxDataSample))
  }

  /** Row `i` of the pre-processed window, before any re-orientation. */
  lemma PreprocessRow(st: Iir.FilterState, window: seq<Int16>, length: nat, i: nat)
    requires Iir.HasTaps(st) && |window| == length * NumAxis && i < length
    ensures Index(i + 1, 0, NumAxis) <= |window|
    ensures RowOf(Preprocess(st, window, length, NumAxis).1, i, NumAxis) == PreprocessedRow(window, length, i)
  {
    IndexMonotone(i + 1, length, 0, NumAxis);
    var row := RowOf(Preprocess(st, window, length, NumAxis).1, i, NumAxis);
    forall c | 0 <= c < NumAxis
      ensures row[c] == PreprocessedRow(window, length, i)[c]
    {
      PreprocessAt(st, window, length, NumAxis, i, c);
    }
  }

  /**
   * What a pass hands on, row by row: each channel smoothed from rest and
   * normalised, then oriented on a BMI160 board.
   */
  lemma OrientedWindowRows(bmi: bool, st: Iir.FilterState, window: seq<Int16>, length: nat)
    requires Iir.HasTaps(st) && |window| == length * NumAxis
    ensures forall i :: 0 <= i < length ==>
      RowOf(OrientedWindow(bmi, st, window, length), i, NumAxis) ==
        (if bmi then Oriented(PreprocessedRow(window, length, i)) else PreprocessedRow(window, length, i))
  {
    forall i | 0 <= i < length
      ensures RowOf(OrientedWindow(bmi, st, window, length), i, NumAxis) ==
        (if bmi then Oriented(PreprocessedRow(window, length, i)) else PreprocessedRow(window, length, i))
    {
      OrientedWindowRow(bmi, st, window, length, i);
    }
  }

  /** OrientedWindowRows at one row. */
  lemma OrientedWindowRow(bmi: bool, st: Iir.FilterState, window: seq<Int16>, length: nat, i: nat)
    requires Iir.HasTaps(st) && |window| == length * NumAxis && i < length
    ensures Index(i + 1, 0, NumAxis) <= |window|
    ensures RowOf(OrientedWindow(bmi, st, window, length), i, NumAxis) ==
      (if bmi then Oriented(PreprocessedRow(window, length, i)) else PreprocessedRow(window, length, i))
  {
    var data := Preprocess(st, window, length, NumAxis).1;
    PreprocessRow(st, window, length, i);
    if bmi {
      BmiRemapRow(data, length, i);
    }
  }
}
