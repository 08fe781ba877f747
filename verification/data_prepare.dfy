/**
 * train/data_prepare.py: a captured CSV file is split into recordings at
 * separator rows, the recordings are stacked row-wise, and the stack is
 * cut into 128-row windows with a stride set by the overlap rate. Every
 * window becomes one example carrying the file's class label and name.
 * File and JSON I/O are outside the model: the CSV rows arrive as
 * classified cells and the examples are the result.
 */
module DataPrepare {
  import opened Results
  import opened Numeric
  import opened Seqs

  /**
   * One CSV field, classified by what the script does with it: the
   * separator string "-", text that float() accepts (with its value), or
   * any other text.
   */
  datatype Cell = Dash | Number(value: real) | Text(text: string)

  /** One row of six sensor values. */
  type Row = seq<real>

  /** The rows between two separators. */
  type Recording = seq<Row>

  /** The exceptions the script can raise on a file. */
  datatype PrepError =
    | NotANumber    // float() of a field that is not a number
    | ShapeMismatch // np.vstack of an empty recording onto a non-empty stack
    | NoData        // the DataFrame of an empty stack
    | ZeroStride    // range() with a step of zero

  /** Fields per data row. */
  const Fields: nat := 6

  /** Rows per window (segment_signal's window_size). */
  const WindowSize: nat := 128

  /** The overlap rate used when none is given on the command line. */
  const DefaultOverlap: real := 0.2

  /** One example: the class label, the file name, and a window of rows. */
  datatype Example = Example(gesture: string, name: string, rows: seq<Row>)

  /** float() applied to every field of a row, left to right. */
  function Floats(cells: seq<Cell>): (r: Result<Row, PrepError>)
    ensures r.Success? <==> forall k :: 0 <= k < |cells| ==> cells[k].Number?
    ensures r.Success? ==> |r.value| == |cells| && forall k :: 0 <= k < |cells| ==> r.value[k] == cells[k].value
    ensures r.Failure? ==> r.error == NotANumber
  {
    if cells == [] then Success([])
    else
      var last := cells[|cells| - 1];
      match Floats(cells[..|cells| - 1])
      case Failure(e) => Failure(e)
      case Success(front) =>
        if last.Number? then Success(front + [last.value]) else Failure(NotANumber)
  }

  /** The reader's state: the recordings closed so far and the one being filled. */
  datatype Reader = Reader(closed: seq<Recording>, current: Recording)

  /**
   * One CSV row of prepare_original_data_overlap. A row without exactly six
   * fields is skipped. A row whose third field is "-" closes the current
   * recording, but only when that recording holds rows. Any other row is
   * appended, as six floats, to the current recording.
   */
  function ReadRow(st: Reader, line: seq<Cell>): (r: Result<Reader, PrepError>)
    ensures |line| != Fields ==> r == Success(st)
    ensures |line| == Fields && line[2] == Dash ==>
      r == Success(if st.current == [] then st else Reader(st.closed + [st.current], []))
    ensures |line| == Fields && line[2] != Dash ==>
      (r.Success? <==> forall k :: 0 <= k < Fields ==> line[k].Number?)
    ensures |line| == Fields && line[2] != Dash && r.Success? ==>
      r.value.closed == st.closed && |r.value.current| == |st.current| + 1 &&
      r.value.current[..|st.current|] == st.current &&
      |r.value.current[|st.current|]| == Fields &&
      forall k :: 0 <= k < Fields ==> r.value.current[|st.current|][k] == line[k].value
  {
    if |line| != Fields then Success(st)
    else if line[2] == Dash then
      if st.current == [] then Success(st) else Success(Reader(st.closed + [st.current], []))
    else
      match Floats(line)
      case Failure(e) => Failure(e)
      case Success(row) =>
        assert (st.current + [row])[..|st.current|] == st.current;
        Success(Reader(st.closed, st.current + [row]))
  }

  /** The rows of a file read in order from state `st`; the first exception stops the read. */
  function ReadFrom(st: Reader, lines: seq<seq<Cell>>): (r: Result<Reader, PrepError>)
    decreases |lines|
  {
    if lines == [] then Success(st)
    else
      match ReadFrom(st, lines[..|lines| - 1])
      case Failure(e) => Failure(e)
      case Success(mid) => ReadRow(mid, lines[|lines| - 1])
  }

  /** Every closed recording holds rows, and every row read holds six values. */
  ghost predicate WellRead(st: Reader) {
    && (forall j :: 0 <= j < |st.closed| ==> st.closed[j] != [])
    && (forall j, i :: 0 <= j < |st.closed| && 0 <= i < |st.closed[j]| ==> |st.closed[j][i]| == Fields)
    && (forall i :: 0 <= i < |st.current| ==> |st.current[i]| == Fields)
  }

  /**
   * Leading or repeated separators never close an empty recording, and
   * every row kept has exactly six values.
   */
  lemma {:induction false} ReadKeepsWellRead(st: Reader, lines: seq<seq<Cell>>)
    requires WellRead(st)
    ensures ReadFrom(st, lines).Success? ==> WellRead(ReadFrom(st, lines).value)
    decreases |lines|
  {
    if lines != [] {
      ReadKeepsWellRead(st, lines[..|lines| - 1]);
      var prev := ReadFrom(st, lines[..|lines| - 1]);
      if prev.Success? {
        var line := lines[|lines| - 1];
        var mid := prev.value;
        var next := ReadRow(mid, line);
        if next.Success? && |line| == Fields && line[2] != Dash {
          var cur := next.value.current;
          forall i | 0 <= i < |cur|
            ensures |cur[i]| == Fields
          {
            if i < |mid.current| {
              assert cur[i] == cur[..|mid.current|][i];
            }
          }
        }
      }
    }
  }

  /** Reading two runs of rows one after the other is reading their concatenation. */
  lemma {:induction false} ReadFromConcat(st: Reader, a: seq<seq<Cell>>, b: seq<seq<Cell>>)
    requires ReadFrom(st, a).Success?
    ensures ReadFrom(st, a + b) == ReadFrom(ReadFrom(st, a).value, b)
    decreases |b|
  {
    if b == [] {
      assert a + b == a;
    } else {
      var n := |b| - 1;
      assert (a + b)[..|a + b| - 1] == a + b[..n];
      assert (a + b)[|a + b| - 1] == b[n];
      ReadFromConcat(st, a, b[..n]);
    }
  }

  /** The file read from the start. */
  function ReadLines(lines: seq<seq<Cell>>): (r: Result<Reader, PrepError>)
    ensures r.Success? ==> WellRead(r.value)
  {
    ReadKeepsWellRead(Reader([], []), lines);
    ReadFrom(Reader([], []), lines)
  }

  /**
   * The recordings of a file as prepare_original_data_overlap collects
   * them: the recording still open at the end of the file is appended
   * even when it is empty.
   */
  function SplitRecordingsAsWritten(lines: seq<seq<Cell>>): (r: Result<seq<Recording>, PrepError>)
    ensures r.Success? <==> ReadLines(lines).Success?
    ensures r.Success? ==> |r.value| == |ReadLines(lines).value.closed| + 1
  {
    match ReadLines(lines)
    case Failure(e) => Failure(e)
    case Success(st) => Success(st.closed + [st.current])
  }

  /** The recordings of a file with the final recording kept only when it holds rows. */
  function SplitRecordings(lines: seq<seq<Cell>>): (r: Result<seq<Recording>, PrepError>)
    ensures r.Success? <==> ReadLines(lines).Success?
    ensures r.Success? ==> forall j :: 0 <= j < |r.value| ==> r.value[j] != []
    ensures r.Success? ==> forall j, i :: 0 <= j < |r.value| && 0 <= i < |r.value[j]| ==> |r.value[j][i]| == Fields
  {
    match ReadLines(lines)
    case Failure(e) => Failure(e)
    case Success(st) => Success(st.closed + (if st.current == [] then [] else [st.current]))
  }

  /** The separator line the firmware prints before every window. */
  const Separator: seq<Cell> := [Dash, Dash, Dash, Dash, Dash, Dash]

  /** The CSV cells of one printed row. */
  function RowCells(row: Row): (cells: seq<Cell>)
    ensures |cells| == |row| && forall k :: 0 <= k < |row| ==> cells[k] == Number(row[k])
  {
    seq(|row|, k requires 0 <= k < |row| => Number(row[k]))
  }

  /** The CSV rows of a recording's rows. */
  function RecordingCells(rec: Recording): (lines: seq<seq<Cell>>)
    ensures |lines| == |rec| && forall i :: 0 <= i < |rec| ==> lines[i] == RowCells(rec[i])
  {
    seq(|rec|, i requires 0 <= i < |rec| => RowCells(rec[i]))
  }

  /** A capture of several windows: each is a separator line followed by its rows. */
  function Framed(recs: seq<Recording>): (lines: seq<seq<Cell>>)
    decreases |recs|
  {
    if recs == [] then []
    else Framed(recs[..|recs| - 1]) + [Separator] + RecordingCells(recs[|recs| - 1])
  }

  /** Reading six-value rows appends them to the open recording. */
  lemma {:induction false} ReadRowsAppends(closed: seq<Recording>, current: Recording, rec: Recording)
    requires forall i :: 0 <= i < |rec| ==> |rec[i]| == Fields
    ensures ReadFrom(Reader(closed, current), RecordingCells(rec)) == Success(Reader(closed, current + rec))
    decreases |rec|
  {
    var lines := RecordingCells(rec);
    if rec == [] {
      assert current + rec == current;
    } else {
      var n := |rec| - 1;
      assert lines[..n] == RecordingCells(rec[..n]);
      ReadRowsAppends(closed, current, rec[..n]);
      var mid := Reader(closed, current + rec[..n]);
      assert ReadFrom(Reader(closed, current), lines) == ReadRow(mid, lines[n]);
      assert lines[n] == RowCells(rec[n]);
      ReadValueRow(mid, rec[n]);
      assert current + rec[..n] + [rec[n]] == current + rec;
    }
  }

  /** The printed cells of a six-value row are read back as that row. */
  lemma ReadValueRow(st: Reader, row: Row)
    requires |row| == Fields
    ensures ReadRow(st, RowCells(row)) == Success(Reader(st.closed, st.current + [row]))
  {
    var line := RowCells(row);
    assert line[2] == Number(row[2]);
    var next := ReadRow(st, line);
    assert next.Success?;
    var cur := next.value.current;
    assert cur[|st.current|] == row;
    assert cur == st.current + [row];
  }

  /**
   * Reading a capture of non-empty six-value windows closes every window
   * but the last, which stays open.
   */
  lemma {:induction false} ReadFramed(recs: seq<Recording>)
    requires forall j :: 0 <= j < |recs| ==> recs[j] != []
    requires forall j, i :: 0 <= j < |recs| && 0 <= i < |recs[j]| ==> |recs[j][i]| == Fields
    ensures recs == [] ==> ReadLines(Framed(recs)) == Success(Reader([], []))
    ensures recs != [] ==> ReadLines(Framed(recs)) == Success(Reader(recs[..|recs| - 1], recs[|recs| - 1]))
    decreases |recs|
  {
    if recs != [] {
      var n := |recs| - 1;
      ReadFramed(recs[..n]);
      SeparatorCloses(recs[..n]);
      ReadFromConcat(Reader([], []), Framed(recs[..n]) + [Separator], RecordingCells(recs[n]));
      ReadRowsAppends(recs[..n], [], recs[n]);
      assert [] + recs[n] == recs[n];
    }
  }

  /** Reading one more row continues from where the earlier rows left off. */
  lemma ReadThenRow(st: Reader, lines: seq<seq<Cell>>, line: seq<Cell>)
    requires ReadFrom(st, lines).Success?
    ensures ReadFrom(st, lines + [line]) == ReadRow(ReadFrom(st, lines).value, line)
  {
    assert (lines + [line])[..|lines|] == lines;
  }

  /** A separator line closes a recording that holds rows. */
  lemma SeparatorRow(st: Reader)
    requires st.current != []
    ensures ReadRow(st, Separator) == Success(Reader(st.closed + [st.current], []))
  {
    assert |Separator| == Fields && Separator[2] == Dash;
  }

  /** After a capture of closed windows, a separator line closes the last one. */
  lemma SeparatorCloses(recs: seq<Recording>)
    requires forall j :: 0 <= j < |recs| ==> recs[j] != []
    requires recs == [] ==> ReadLines(Framed(recs)) == Success(Reader([], []))
    requires recs != [] ==> ReadLines(Framed(recs)) == Success(Reader(recs[..|recs| - 1], recs[|recs| - 1]))
    ensures ReadLines(Framed(recs) + [Separator]) == Success(Reader(recs, []))
  {
    var lines := Framed(recs);
    assert ReadLines(lines) == ReadFrom(Reader([], []), lines);
    assert ReadLines(lines + [Separator]) == ReadFrom(Reader([], []), lines + [Separator]);
    ReadThenRow(Reader([], []), lines, Separator);
    var open := ReadFrom(Reader([], []), lines).value;
    if recs == [] {
      assert |Separator| == Fields && Separator[2] == Dash;
    } else {
      SeparatorRow(open);
      FrontLast(recs);
    }
  }

  /**
   * The splitter undoes the firmware's framing: a capture of non-empty
   * windows of six-value rows splits back into exactly those windows.
   */
  lemma SplitFramedRoundTrip(recs: seq<Recording>)
    requires forall j :: 0 <= j < |recs| ==> recs[j] != []
    requires forall j, i :: 0 <= j < |recs| && 0 <= i < |recs[j]| ==> |recs[j][i]| == Fields
    ensures SplitRecordings(Framed(recs)) == Success(recs)
  {
    ReadFramed(recs);
    if recs != [] {
      var n := |recs| - 1;
      assert ReadLines(Framed(recs)) == Success(Reader(recs[..n], recs[n]));
      assert recs[n] != [];
      assert SplitRecordings(Framed(recs)) == Success(recs[..n] + [recs[n]]);
      FrontLast(recs);
    }
  }

  /**
   * A capture that ends with a separator line (the capture script stops
   * right after writing one) leaves an empty final recording as written;
   * the corrected splitter drops it.
   */
  lemma TrailingSeparatorLeavesEmptyRecording(recs: seq<Recording>)
    requires recs != []
    requires forall j :: 0 <= j < |recs| ==> recs[j] != []
    requires forall j, i :: 0 <= j < |recs| && 0 <= i < |recs[j]| ==> |recs[j][i]| == Fields
    ensures SplitRecordingsAsWritten(Framed(recs) + [Separator]) == Success(recs + [[]])
    ensures SplitRecordings(Framed(recs) + [Separator]) == Success(recs)
  {
    ReadFramed(recs);
    SeparatorCloses(recs);
    var lines := Framed(recs) + [Separator];
    assert ReadLines(lines) == Success(Reader(recs, []));
    assert SplitRecordings(lines) == Success(recs + []);
    assert recs + [] == recs;
  }

  /**
   * overlap_features' stacking loop: the stack starts empty; an empty
   * stack is replaced by the next recording; a recording stacked under a
   * non-empty stack must have the same width, so an empty one raises.
   */
  function Stack(recs: seq<Recording>): (r: Result<Recording, PrepError>)
    ensures r.Success? ==> r.value == Concat(recs)
    ensures r.Failure? ==> r.error == ShapeMismatch
    decreases |recs|
  {
    if recs == [] then Success([])
    else
      var last := recs[|recs| - 1];
      match Stack(recs[..|recs| - 1])
      case Failure(e) => Failure(e)
      case Success(full) =>
        if full == [] then
          ConcatEmpty(recs[..|recs| - 1]);
          Success(last)
        else if last == [] then
          ConcatNonEmpty(recs[..|recs| - 1]);
          Failure(ShapeMismatch)
        else Success(full + last)
  }

  /** No empty recording comes after one that holds rows. */
  predicate Stackable(recs: seq<Recording>) {
    forall j, k :: 0 <= j < k < |recs| && recs[j] != [] ==> recs[k] != []
  }

  /** The stacking succeeds exactly when no empty recording follows one that holds rows. */
  lemma {:induction false} StackSucceeds(recs: seq<Recording>)
    ensures Stack(recs).Success? <==> Stackable(recs)
    decreases |recs|
  {
    if recs != [] {
      var front, last := recs[..|recs| - 1], recs[|recs| - 1];
      StackSucceeds(front);
      assert forall j :: 0 <= j < |front| ==> front[j] == recs[j];
      match Stack(front)
      case Failure(_) =>
        var j, k :| 0 <= j < k < |front| && front[j] != [] && front[k] == [];
        assert recs[j] != [] && recs[k] == [];
      case Success(full) =>
        if full == [] {
          ConcatEmpty(front);
        } else if last == [] {
          ConcatNonEmpty(front);
          var j :| 0 <= j < |front| && front[j] != [];
          assert recs[j] != [] && recs[|recs| - 1] == [];
        }
    }
  }

  /** The rows of all recordings in order. */
  function Concat(recs: seq<Recording>): (rows: Recording)
    decreases |recs|
  {
    if recs == [] then [] else Concat(recs[..|recs| - 1]) + recs[|recs| - 1]
  }

  /** An empty stack means every recording so far was empty. */
  lemma {:induction false} ConcatEmpty(recs: seq<Recording>)
    requires Concat(recs) == []
    ensures forall j :: 0 <= j < |recs| ==> recs[j] == []
    decreases |recs|
  {
    if recs != [] {
      ConcatEmpty(recs[..|recs| - 1]);
    }
  }

  /** A non-empty stack means some recording so far held rows. */
  lemma {:induction false} ConcatNonEmpty(recs: seq<Recording>)
    requires Concat(recs) != []
    ensures exists j :: 0 <= j < |recs| && recs[j] != []
    decreases |recs|
  {
    if recs != [] && recs[|recs| - 1] == [] {
      ConcatNonEmpty(recs[..|recs| - 1]);
      var j :| 0 <= j < |recs| - 1 && recs[..|recs| - 1][j] != [];
      assert recs[j] != [];
    }
  }

  /** The stride of segment_signal: window_size times the overlap rate, truncated. */
  function Stride(overlap: real, windowSize: nat): (s: int)
    requires 0.0 <= overlap
    ensures s >= 0 && s as real <= windowSize as real * overlap < s as real + 1.0
  {
    Trunc(windowSize as real * overlap)
  }

  /** With the default overlap of 0.2 the windows start 25 rows apart. */
  lemma DefaultStride()
    ensures Stride(DefaultOverlap, WindowSize) == 25
  {
    assert WindowSize as real * DefaultOverlap == 25.6;
  }

  /** Python's range(start, stop, step) for a positive step. */
  function Range(start: int, stop: int, step: nat): (r: seq<int>)
    requires step > 0
    decreases stop - start
  {
    if start >= stop then [] else [start] + Range(start + step, stop, step)
  }

  /**
   * range(start, stop, step) lists start, start + step, start + 2·step, …
   * while below `stop`, and the next one would not be.
   */
  lemma {:induction false} RangeShape(start: int, stop: int, step: nat)
    requires step > 0
    ensures forall k :: 0 <= k < |Range(start, stop, step)| ==>
      Range(start, stop, step)[k] == start + k * step && Range(start, stop, step)[k] < stop
    ensures start + |Range(start, stop, step)| * step >= stop
    decreases stop - start
  {
    if start < stop {
      var r := Range(start, stop, step);
      var rest := Range(start + step, stop, step);
      RangeShape(start + step, stop, step);
      assert start + step + |rest| * step == start + |r| * step by {
        MulSucc(|rest|, step);
      }
      forall k | 0 <= k < |r|
        ensures r[k] == start + k * step && r[k] < stop
      {
        if k > 0 {
          assert r[k] == rest[k - 1];
          MulSucc(k - 1, step);
        }
      }
    }
  }

  /** One more stride. */
  lemma MulSucc(k: int, step: int)
    ensures (k + 1) * step == k * step + step
  {
  }

  /**
   * segment_signal as written: windows of `windowSize` consecutive rows
   * starting at 0, s, 2s, … strictly below len - windowSize, so the window
   * that ends on the last row is never produced. A zero stride raises.
   */
  function SegmentsAsWritten(rows: seq<Row>, overlap: real, windowSize: nat): (r: Result<seq<seq<Row>>, PrepError>)
    requires 0.0 <= overlap
    ensures r.Failure? <==> Stride(overlap, windowSize) == 0
  {
    var s := Stride(overlap, windowSize);
    if s == 0 then Failure(ZeroStride)
    else
      var starts := Range(0, |rows| - windowSize, s);
      RangeShape(0, |rows| - windowSize, s);
      Success(seq(|starts|, k requires 0 <= k < |starts| => rows[starts[k]..starts[k] + windowSize]))
  }

  /**
   * segment_signal with the bound made inclusive: windows start at 0, s,
   * 2s, … up to len - windowSize, so a recording of exactly one window's
   * length yields that window.
   */
  function Segments(rows: seq<Row>, overlap: real, windowSize: nat): (r: Result<seq<seq<Row>>, PrepError>)
    requires 0.0 <= overlap
    ensures r.Failure? <==> Stride(overlap, windowSize) == 0
  {
    var s := Stride(overlap, windowSize);
    if s == 0 then Failure(ZeroStride)
    else
      var starts := Range(0, |rows| - windowSize + 1, s);
      RangeShape(0, |rows| - windowSize + 1, s);
      Success(seq(|starts|, k requires 0 <= k < |starts| => rows[starts[k]..starts[k] + windowSize]))
  }

  /**
   * The windows as written: when len > w there are n of them with
   * (n - 1)·s < len - w <= n·s, that is ceil((len - w) / s); otherwise
   * none. Window k is rows k·s .. k·s + w - 1.
   */
  lemma SegmentsAsWrittenShape(rows: seq<Row>, overlap: real, windowSize: nat)
    requires 0.0 <= overlap && Stride(overlap, windowSize) > 0
    ensures var s, n := Stride(overlap, windowSize), |SegmentsAsWritten(rows, overlap, windowSize).value|;
      && (|rows| <= windowSize ==> n == 0)
      && (|rows| > windowSize ==> n > 0 && (n - 1) * s < |rows| - windowSize <= n * s)
    ensures forall k :: 0 <= k < |SegmentsAsWritten(rows, overlap, windowSize).value| ==>
      k * Stride(overlap, windowSize) + windowSize < |rows| &&
      SegmentsAsWritten(rows, overlap, windowSize).value[k] ==
        rows[k * Stride(overlap, windowSize)..k * Stride(overlap, windowSize) + windowSize]
  {
    var s := Stride(overlap, windowSize);
    var starts := Range(0, |rows| - windowSize, s);
    RangeShape(0, |rows| - windowSize, s);
    var segs := SegmentsAsWritten(rows, overlap, windowSize).value;
    var n := |starts|;
    assert |segs| == n;
    assert |rows| > windowSize ==> n > 0 && (n - 1) * s < |rows| - windowSize <= n * s by {
      if |rows| > windowSize {
        assert starts == [0] + Range(s, |rows| - windowSize, s);
        assert starts[n - 1] == (n - 1) * s;
      }
    }
    assert |rows| <= windowSize ==> n == 0 by {
      if |rows| <= windowSize {
        assert starts == [];
      }
    }
    forall k | 0 <= k < n
      ensures k * s + windowSize < |rows| && segs[k] == rows[k * s..k * s + windowSize]
    {
      assert starts[k] == k * s;
    }
  }

  /**
   * The corrected windows: when len >= w there are n of them with
   * (n - 1)·s <= len - w < n·s, that is (len - w) / s + 1; otherwise none.
   * Window k is rows k·s .. k·s + w - 1.
   */
  lemma SegmentsShape(rows: seq<Row>, overlap: real, windowSize: nat)
    requires 0.0 <= overlap && Stride(overlap, windowSize) > 0
    ensures var s, n := Stride(overlap, windowSize), |Segments(rows, overlap, windowSize).value|;
      && (|rows| < windowSize ==> n == 0)
      && (|rows| >= windowSize ==> n > 0 && (n - 1) * s <= |rows| - windowSize < n * s)
    ensures forall k :: 0 <= k < |Segments(rows, overlap, windowSize).value| ==>
      k * Stride(overlap, windowSize) + windowSize <= |rows| &&
      Segments(rows, overlap, windowSize).value[k] ==
        rows[k * Stride(overlap, windowSize)..k * Stride(overlap, windowSize) + windowSize]
  {
    var s := Stride(overlap, windowSize);
    var starts := Range(0, |rows| - windowSize + 1, s);
    RangeShape(0, |rows| - windowSize + 1, s);
    var segs := Segments(rows, overlap, windowSize).value;
    var n := |starts|;
    assert |segs| == n;
    assert |rows| >= windowSize ==> n > 0 && (n - 1) * s <= |rows| - windowSize < n * s by {
      if |rows| >= windowSize {
        assert starts == [0] + Range(s, |rows| - windowSize + 1, s);
        assert starts[n - 1] == (n - 1) * s;
      }
    }
    assert |rows| < windowSize ==> n == 0 by {
      if |rows| < windowSize {
        assert starts == [];
      }
    }
    forall k | 0 <= k < n
      ensures k * s + windowSize <= |rows| && segs[k] == rows[k * s..k * s + windowSize]
    {
      assert starts[k] == k * s;
    }
  }

  /**
   * The window that ends on the last row: the corrected splitter yields it
   * whenever the stride divides len - w, the as-written one never does. A
   * recording of exactly one window's length gives one window instead of none.
   */
  lemma LastWindowDropped(rows: seq<Row>, overlap: real)
    requires 0.0 <= overlap && Stride(overlap, WindowSize) > 0 && |rows| == WindowSize
    ensures SegmentsAsWritten(rows, overlap, WindowSize) == Success([])
    ensures Segments(rows, overlap, WindowSize) == Success([rows])
  {
    var s := Stride(overlap, WindowSize);
    SegmentsAsWrittenShape(rows, overlap, WindowSize);
    assert SegmentsAsWritten(rows, overlap, WindowSize).value == [];
    assert Range(0, 1, s) == [0] + Range(s, 1, s);
    assert Range(s, 1, s) == [];
    assert rows[0..WindowSize] == rows;
    var segs := Segments(rows, overlap, WindowSize).value;
    assert |segs| == 1 && segs[0] == rows;
    assert segs == [rows];
  }

  /**
   * prepare_original_data_overlap on one file as written: split the rows
   * into recordings (the last one kept even when empty), stack them, cut
   * the stack into windows with the exclusive bound, and label every
   * window with the file's class and name. An empty stack cannot be framed
   * into six named columns and raises.
   */
  function PrepareFileAsWritten(gesture: string, name: string, lines: seq<seq<Cell>>, overlap: real): (r: Result<seq<Example>, PrepError>)
    requires 0.0 <= overlap
    ensures r.Success? ==> forall k :: 0 <= k < |r.value| ==>
      r.value[k].gesture == gesture && r.value[k].name == name && |r.value[k].rows| == WindowSize
  {
    match SplitRecordingsAsWritten(lines)
    case Failure(e) => Failure(e)
    case Success(recs) =>
      match Stack(recs)
      case Failure(e) => Failure(e)
      case Success(rows) =>
        if rows == [] then Failure(NoData)
        else
          match SegmentsAsWritten(rows, overlap, WindowSize)
          case Failure(e) => Failure(e)
          case Success(windows) =>
            SegmentsAsWrittenWidth(rows, overlap, WindowSize);
            Success(seq(|windows|, k requires 0 <= k < |windows| => Example(gesture, name, windows[k])))
  }

  /** Every window cut as written has exactly `windowSize` rows. */
  lemma SegmentsAsWrittenWidth(rows: seq<Row>, overlap: real, windowSize: nat)
    requires 0.0 <= overlap && SegmentsAsWritten(rows, overlap, windowSize).Success?
    ensures forall k :: 0 <= k < |SegmentsAsWritten(rows, overlap, windowSize).value| ==>
      |SegmentsAsWritten(rows, overlap, windowSize).value[k]| == windowSize
  {
    SegmentsAsWrittenShape(rows, overlap, windowSize);
  }

  /**
   * The as-written splitter also undoes the framing when the file does not
   * end with a separator: the recording open at the end is the last window.
   */
  lemma SplitAsWrittenFramedRoundTrip(recs: seq<Recording>)
    requires recs != []
    requires forall j :: 0 <= j < |recs| ==> recs[j] != []
    requires forall j, i :: 0 <= j < |recs| && 0 <= i < |recs[j]| ==> |recs[j][i]| == Fields
    ensures SplitRecordingsAsWritten(Framed(recs)) == Success(recs)
  {
    ReadFramed(recs);
    var n := |recs| - 1;
    assert ReadLines(Framed(recs)) == Success(Reader(recs[..n], recs[n]));
    FrontLast(recs);
  }

  /**
   * As written, a file of non-empty windows of six-value rows with no
   * trailing separator becomes the examples the exclusive bound cuts from
   * those windows' rows laid end to end, in order and labelled with the
   * file's class and name; a file of at most one window's rows gives none.
   */
  lemma PrepareCaptureAsWritten(gesture: string, name: string, recs: seq<Recording>, overlap: real)
    requires 0.0 <= overlap && Stride(overlap, WindowSize) > 0 && recs != []
    requires forall j :: 0 <= j < |recs| ==> recs[j] != []
    requires forall j, i :: 0 <= j < |recs| && 0 <= i < |recs[j]| ==> |recs[j][i]| == Fields
    ensures PrepareFileAsWritten(gesture, name, Framed(recs), overlap).Success?
    ensures |PrepareFileAsWritten(gesture, name, Framed(recs), overlap).value|
      == |SegmentsAsWritten(Concat(recs), overlap, WindowSize).value|
    ensures forall k :: 0 <= k < |PrepareFileAsWritten(gesture, name, Framed(recs), overlap).value| ==>
      PrepareFileAsWritten(gesture, name, Framed(recs), overlap).value[k]
        == Example(gesture, name, SegmentsAsWritten(Concat(recs), overlap, WindowSize).value[k])
    ensures |Concat(recs)| <= WindowSize ==> PrepareFileAsWritten(gesture, name, Framed(recs), overlap) == Success([])
  {
    SplitAsWrittenFramedRoundTrip(recs);
    StackSucceeds(recs);
    assert Concat(recs) != [] by {
      ConcatEmptyOnlyIfAllEmpty(recs);
    }
    if |Concat(recs)| <= WindowSize {
      ShortRowsHaveNoWindows(Concat(recs), overlap);
    }
  }

  /** As written, at most one window's rows give no window at all. */
  lemma ShortRowsHaveNoWindows(rows: seq<Row>, overlap: real)
    requires 0.0 <= overlap && Stride(overlap, WindowSize) > 0 && |rows| <= WindowSize
    ensures SegmentsAsWritten(rows, overlap, WindowSize) == Success([])
  {
    SegmentsAsWrittenShape(rows, overlap, WindowSize);
  }

  /**
   * A file as the capture script leaves it, every window followed by the
   * next separator, raises as written, and the corrected preparation
   * accepts it.
   */
  lemma CollectedFileRaises(gesture: string, name: string, recs: seq<Recording>, overlap: real)
    requires 0.0 <= overlap && recs != []
    requires forall j :: 0 <= j < |recs| ==> recs[j] != []
    requires forall j, i :: 0 <= j < |recs| && 0 <= i < |recs[j]| ==> |recs[j][i]| == Fields
    ensures PrepareFileAsWritten(gesture, name, Framed(recs) + [Separator], overlap) == Failure(ShapeMismatch)
    ensures Stride(overlap, WindowSize) > 0 ==> PrepareFile(gesture, name, Framed(recs) + [Separator], overlap).Success?
  {
    TrailingSeparatorRaises(gesture, name, recs, overlap);
    TrailingSeparatorLeavesEmptyRecording(recs);
    assert Concat(recs) != [] by {
      StackSucceeds(recs);
      ConcatEmptyOnlyIfAllEmpty(recs);
    }
  }

  /**
   * prepare_original_data_overlap on one file with the splitter and the
   * window bound corrected: split the rows into recordings, dropping an
   * empty final one, stack them, cut the stack into every window that
   * fits, and label every window with the file's class and name. An empty
   * stack cannot be framed into six named columns and raises.
   */
  function PrepareFile(gesture: string, name: string, lines: seq<seq<Cell>>, overlap: real): (r: Result<seq<Example>, PrepError>)
    requires 0.0 <= overlap
    ensures r.Success? ==> forall k :: 0 <= k < |r.value| ==>
      r.value[k].gesture == gesture && r.value[k].name == name && |r.value[k].rows| == WindowSize
  {
    match SplitRecordings(lines)
    case Failure(e) => Failure(e)
    case Success(recs) =>
      match Stack(recs)
      case Failure(e) => Failure(e)
      case Success(rows) =>
        if rows == [] then Failure(NoData)
        else
          match Segments(rows, overlap, WindowSize)
          case Failure(e) => Failure(e)
          case Success(windows) =>
            SegmentsWidth(rows, overlap, WindowSize);
            Success(seq(|windows|, k requires 0 <= k < |windows| => Example(gesture, name, windows[k])))
  }

  /** Every window has exactly `windowSize` rows. */
  lemma SegmentsWidth(rows: seq<Row>, overlap: real, windowSize: nat)
    requires 0.0 <= overlap && Segments(rows, overlap, windowSize).Success?
    ensures forall k :: 0 <= k < |Segments(rows, overlap, windowSize).value| ==>
      |Segments(rows, overlap, windowSize).value[k]| == windowSize
  {
    SegmentsShape(rows, overlap, windowSize);
  }

  /**
   * With the corrections, a file of non-empty windows of six-value rows
   * becomes exactly the examples cut from those windows' rows laid end to
   * end, in order and labelled with the file's class and name.
   */
  lemma PrepareCapture(gesture: string, name: string, recs: seq<Recording>, overlap: real)
    requires 0.0 <= overlap && Stride(overlap, WindowSize) > 0 && recs != []
    requires forall j :: 0 <= j < |recs| ==> recs[j] != []
    requires forall j, i :: 0 <= j < |recs| && 0 <= i < |recs[j]| ==> |recs[j][i]| == Fields
    ensures PrepareFile(gesture, name, Framed(recs), overlap).Success?
    ensures |PrepareFile(gesture, name, Framed(recs), overlap).value| == |Segments(Concat(recs), overlap, WindowSize).value|
    ensures forall k :: 0 <= k < |PrepareFile(gesture, name, Framed(recs), overlap).value| ==>
      PrepareFile(gesture, name, Framed(recs), overlap).value[k]
        == Example(gesture, name, Segments(Concat(recs), overlap, WindowSize).value[k])
  {
    SplitFramedRoundTrip(recs);
    StackSucceeds(recs);
    assert Concat(recs) != [] by {
      ConcatEmptyOnlyIfAllEmpty(recs);
    }
    PrepareFileOfRecordings(gesture, name, Framed(recs), overlap, recs);
  }

  /** PrepareFile once the file has split into `recs` and they stack into rows. */
  lemma PrepareFileOfRecordings(gesture: string, name: string, lines: seq<seq<Cell>>, overlap: real, recs: seq<Recording>)
    requires 0.0 <= overlap && Stride(overlap, WindowSize) > 0
    requires SplitRecordings(lines) == Success(recs) && Stack(recs).Success? && Concat(recs) != []
    ensures var windows := Segments(Concat(recs), overlap, WindowSize).value;
      PrepareFile(gesture, name, lines, overlap)
        == Success(seq(|windows|, k requires 0 <= k < |windows| => Example(gesture, name, windows[k])))
  {
  }

  /** A stack of recordings that are all non-empty is non-empty once there is one. */
  lemma {:induction false} ConcatEmptyOnlyIfAllEmpty(recs: seq<Recording>)
    requires recs != [] && recs[|recs| - 1] != []
    ensures Concat(recs) != []
  {
    assert |Concat(recs)| >= |recs[|recs| - 1]|;
  }

  /**
   * As written, a capture that ends with a separator raises: the empty
   * final recording cannot be stacked under the others.
   */
  lemma TrailingSeparatorRaises(gesture: string, name: string, recs: seq<Recording>, overlap: real)
    requires 0.0 <= overlap && recs != []
    requires forall j :: 0 <= j < |recs| ==> recs[j] != []
    requires forall j, i :: 0 <= j < |recs| && 0 <= i < |recs[j]| ==> |recs[j][i]| == Fields
    ensures SplitRecordingsAsWritten(Framed(recs) + [Separator]).Success? &&
      Stack(SplitRecordingsAsWritten(Framed(recs) + [Separator]).value) == Failure(ShapeMismatch)
    ensures SplitRecordings(Framed(recs) + [Separator]).Success? &&
      Stack(SplitRecordings(Framed(recs) + [Separator]).value).Success?
  {
    TrailingSeparatorLeavesEmptyRecording(recs);
    var split := recs + [[]];
    assert split[0] != [] && split[|split| - 1] == [];
    StackSucceeds(split);
    StackSucceeds(recs);
  }
}
